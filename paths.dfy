/** The part of Python's pathlib that the converter relies on: paths as
    sequences of components, prefixes, `relative_to`, `parent`, `name` and
    `stem`. The empty path stands for the top of the tree. */
module Paths {

  /** One path component, such as "album" or "track.flac". */
  type Name = string

  /** A path as the sequence of its components. */
  type Path = seq<Name>

  /** `a` is `b` or one of its ancestors. */
  predicate IsPrefix(a: Path, b: Path) {
    |a| <= |b| && b[..|a|] == a
  }

  /** `p` lies strictly below `root`. */
  predicate Below(root: Path, p: Path) {
    |root| < |p| && p[..|root|] == root
  }

  /** `p.relative_to(root)`: the components of `p` after `root`. */
  function RelativeTo(p: Path, root: Path): (r: Path)
    requires IsPrefix(root, p)
    ensures root + r == p
  {
    p[|root|..]
  }

  /** `p.parent`: drops the last component; the top is its own parent. */
  function Parent(p: Path): (r: Path)
    ensures p == [] ==> r == []
    ensures p != [] ==> r + [p[|p| - 1]] == p
  {
    if p == [] then [] else p[..|p| - 1]
  }

  /** `p.name`: the last component, or "" for the top. */
  function FileName(p: Path): Name {
    if p == [] then "" else p[|p| - 1]
  }

  /** A non-empty path is its parent followed by its name. */
  lemma ParentThenName(p: Path)
    requires p != []
    ensures Parent(p) + [FileName(p)] == p
  {
  }

  /** `str.rfind('.')`: the index of the last dot, or -1 when there is none. */
  function LastDot(s: string): (i: int)
    ensures -1 <= i < |s|
    ensures 0 <= i ==> s[i] == '.'
    ensures forall j :: i < j < |s| ==> s[j] != '.'
  {
    if s == [] then -1
    else if s[|s| - 1] == '.' then |s| - 1
    else LastDot(s[..|s| - 1])
  }

  /** `PurePath.stem`: the name without its last suffix. A suffix is the
      part from the last dot on, and only counts when that dot is neither
      the first nor the last character, so ".flac" and "a." keep their
      whole name. */
  function Stem(name: Name): (r: Name)
    ensures |r| <= |name| && name[..|r|] == r
  {
    var i := LastDot(name);
    if 0 < i < |name| - 1 then name[..i] else name
  }

  /** When pathlib keeps a name whole, and what it removes otherwise: the
      name is kept exactly when it ends in a dot or has no dot after its
      first character; otherwise the stem is non-empty and is followed by
      the last dot of the name, which is not its final character. */
  lemma StemCases(name: Name)
    ensures Stem(name) == name <==>
              (name != [] && name[|name| - 1] == '.') || forall j :: 0 < j < |name| ==> name[j] != '.'
    ensures var r := Stem(name);
            r != name ==>
              && 0 < |r| < |name| - 1 && name[|r|] == '.'
              && forall j :: |r| < j < |name| ==> name[j] != '.'
  {
  }

  /** Stem removes exactly one suffix: the one after the last dot. */
  lemma StemRemovesLastSuffix(base: Name, ext: Name)
    requires base != "" && ext != "" && '.' !in ext
    ensures Stem(base + "." + ext) == base
  {
    var name := base + "." + ext;
    var i := LastDot(name);
    assert name[|base|] == '.';
    assert forall j :: |base| < j < |name| ==> name[j] == ext[j - |base| - 1];
    assert i == |base|;
    assert name[..i] == base;
  }

  /** A name whose only dot is its first character has no suffix. */
  lemma StemOfDotName(ext: Name)
    requires ext != "" && '.' !in ext
    ensures Stem("." + ext) == "." + ext
  {
    var name := "." + ext;
    var i := LastDot(name);
    assert forall j :: 0 < j < |name| ==> name[j] == ext[j - 1];
    assert name[0] == '.';
  }
}
