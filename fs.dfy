/** The filesystem as the converter sees it: which paths are directories,
    which are files, and `Path.mkdir(parents=True, exist_ok=True)`. */
module Fs {
  import opened Paths

  /** A snapshot of the tree: the directories and the files. */
  datatype State = State(dirs: set<Path>, files: set<Path>)

  /** The shape every real tree has: the top is a directory, no path is both
      a directory and a file, and every entry's parent is a directory. */
  predicate WellFormed(s: State) {
    && [] in s.dirs
    && s.dirs !! s.files
    && (forall d :: d in s.dirs && d != [] ==> Parent(d) in s.dirs)
    && (forall f :: f in s.files && f != [] ==> Parent(f) in s.dirs)
  }

  /** The outcome of a mkdir call: whether it raised, and the directories afterwards. */
  datatype MkdirResult = MkdirResult(ok: bool, dirs: set<Path>)

  /** `p.mkdir(parents=True, exist_ok=True)` following pathlib: an existing
      directory is accepted; an existing file raises; otherwise the parent is
      made first and then `p` itself, which fails where the system refuses to
      create it (`blocked`: permissions, a full disk). A failure leaves the
      ancestors made so far in place. Only prefixes of `p` are ever created. */
  function Mkdir(s: State, blocked: set<Path>, p: Path): (r: MkdirResult)
    ensures s.dirs <= r.dirs
    ensures forall d :: d in r.dirs && d !in s.dirs ==>
              IsPrefix(d, p) && d != [] && d !in blocked && d !in s.files
    decreases |p|
  {
    if p in s.dirs then MkdirResult(true, s.dirs)
    else if p in s.files || p == [] then MkdirResult(false, s.dirs)
    else
      var up := Mkdir(s, blocked, Parent(p));
      if up.ok && p !in blocked then MkdirResult(true, up.dirs + {p})
      else MkdirResult(false, up.dirs)
  }

  /** A prefix that mkdir can pass: it already is a directory, or it is free
      and the system lets it be created. */
  predicate Creatable(s: State, blocked: set<Path>, q: Path) {
    q in s.dirs || (q != [] && q !in s.files && q !in blocked)
  }

  /** Every ancestor of a directory is a directory. */
  lemma {:induction false} AncestorsOfDir(s: State, d: Path)
    requires WellFormed(s) && d in s.dirs
    ensures forall k :: 0 <= k <= |d| ==> d[..k] in s.dirs
    decreases |d|
  {
    assert d[..|d|] == d;
    if d != [] {
      AncestorsOfDir(s, Parent(d));
      forall k | 0 <= k < |d| ensures d[..k] in s.dirs {
        assert Parent(d)[..k] == d[..k];
      }
    }
  }

  /** mkdir succeeds exactly when every prefix of the target, the target
      included, is a directory already or is free and may be created. */
  lemma {:induction false} MkdirSucceedsIff(s: State, blocked: set<Path>, p: Path)
    requires WellFormed(s)
    ensures Mkdir(s, blocked, p).ok <==> forall k :: 0 <= k <= |p| ==> Creatable(s, blocked, p[..k])
    decreases |p|
  {
    assert p[..|p|] == p;
    if p in s.dirs {
      AncestorsOfDir(s, p);
    } else if p in s.files || p == [] {
    } else {
      MkdirSucceedsIff(s, blocked, Parent(p));
      assert forall k :: 0 <= k <= |p| - 1 ==> Parent(p)[..k] == p[..k];
    }
  }

  /** After a successful mkdir the target and all its ancestors are directories. */
  lemma {:induction false} MkdirMakesAncestors(s: State, blocked: set<Path>, p: Path)
    requires WellFormed(s)
    ensures Mkdir(s, blocked, p).ok ==> forall k :: 0 <= k <= |p| ==> p[..k] in Mkdir(s, blocked, p).dirs
    decreases |p|
  {
    assert p[..|p|] == p;
    if p in s.dirs {
      AncestorsOfDir(s, p);
    } else if p in s.files || p == [] {
    } else {
      MkdirMakesAncestors(s, blocked, Parent(p));
      assert forall k :: 0 <= k <= |p| - 1 ==> Parent(p)[..k] == p[..k];
    }
  }

  /** mkdir keeps the tree well formed, whether it succeeds or fails. */
  lemma {:induction false} MkdirKeepsWellFormed(s: State, blocked: set<Path>, p: Path)
    requires WellFormed(s)
    ensures WellFormed(State(Mkdir(s, blocked, p).dirs, s.files))
    decreases |p|
  {
    if p !in s.dirs && p !in s.files && p != [] {
      MkdirKeepsWellFormed(s, blocked, Parent(p));
      MkdirMakesAncestors(s, blocked, Parent(p));
      assert Parent(p)[..|Parent(p)|] == Parent(p);
    }
  }

  /** mkdir on an existing directory changes nothing and does not fail, so a
      second call after a successful one is a no-op. */
  lemma MkdirIdempotent(s: State, blocked: set<Path>, p: Path)
    requires WellFormed(s)
    ensures p in s.dirs ==> Mkdir(s, blocked, p) == MkdirResult(true, s.dirs)
    ensures var r := Mkdir(s, blocked, p);
            r.ok ==> Mkdir(State(r.dirs, s.files), blocked, p) == r
  {
    MkdirMakesAncestors(s, blocked, p);
    assert p[..|p|] == p;
  }

  /** A second mkdir of the same path, on the tree the first one left,
      whether that one succeeded or failed, gives the same answer and
      creates nothing more. */
  lemma {:induction false} MkdirAgain(s: State, blocked: set<Path>, p: Path)
    ensures var r := Mkdir(s, blocked, p);
            Mkdir(State(r.dirs, s.files), blocked, p) == r
    decreases |p|
  {
    if p !in s.dirs && p !in s.files && p != [] {
      MkdirAgain(s, blocked, Parent(p));
    }
  }

  /** A mkdir that has nothing left to create stays so while the tree grows
      by files and by directories the system allowed: it keeps its answer
      and still creates nothing. */
  lemma {:induction false} MkdirSettledGrows(s: State, s2: State, blocked: set<Path>, p: Path)
    requires WellFormed(s) && WellFormed(s2)
    requires s.dirs <= s2.dirs && s.files <= s2.files
    requires forall d :: d in s2.dirs && d !in s.dirs ==> d !in blocked
    requires Mkdir(s, blocked, p).dirs == s.dirs
    ensures Mkdir(s2, blocked, p) == MkdirResult(Mkdir(s, blocked, p).ok, s2.dirs)
    decreases |p|
  {
    if p !in s.dirs && p !in s.files && p != [] {
      MkdirSettledGrows(s, s2, blocked, Parent(p));
    }
  }

  /** The filesystem the converter runs against. `blocked` holds the paths
      at which the system refuses to create a directory; it is fixed for a run. */
  class FileSystem {
    var dirs: set<Path>
    var files: set<Path>
    const blocked: set<Path>

    /** The current tree as a value. */
    function Snapshot(): State
      reads this
    {
      State(dirs, files)
    }

    ghost predicate Valid()
      reads this
    {
      WellFormed(Snapshot())
    }

    constructor (dirs: set<Path>, files: set<Path>, blocked: set<Path>)
      requires WellFormed(State(dirs, files))
      ensures Valid()
      ensures Snapshot() == State(dirs, files) && this.blocked == blocked
    {
      this.dirs := dirs;
      this.files := files;
      this.blocked := blocked;
    }

    /** `p.mkdir(parents=True, exist_ok=True)`, recursing on the parent as
        pathlib does when the parent is missing. */
    method MkdirParents(p: Path) returns (ok: bool)
      requires Valid()
      modifies this
      ensures Valid()
      ensures MkdirResult(ok, dirs) == Mkdir(old(Snapshot()), blocked, p)
      ensures files == old(files)
      decreases |p|
    {
      MkdirKeepsWellFormed(Snapshot(), blocked, p);
      if p in dirs {
        return true;
      }
      if p in files || p == [] {
        return false;
      }
      ok := MkdirParents(Parent(p));
      if ok && p !in blocked {
        dirs := dirs + {p};
      } else {
        ok := false;
      }
    }

    /** Opens `p` for writing and writes it: fails when `p` is a directory or
        its parent is not one; otherwise `p` is a file afterwards. */
    method WriteFile(p: Path) returns (ok: bool)
      requires Valid()
      modifies this
      ensures Valid()
      ensures ok <==> p != [] && p !in old(dirs) && Parent(p) in old(dirs)
      ensures dirs == old(dirs)
      ensures files == if ok then old(files) + {p} else old(files)
    {
      ok := p != [] && p !in dirs && Parent(p) in dirs;
      if ok {
        files := files + {p};
      }
    }
  }
}
