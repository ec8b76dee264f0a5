/** Which files the converter picks up and where each one's MP3 goes:
    the recursive `*.flac` glob, the destination directory that mirrors
    the source's place under the input root, and the `stem + ".mp3"` name. */
module Planner {
  import opened Paths
  import opened Fs

  /** The name matches the glob pattern `*.flac` (case-sensitive; the star
      also matches a leading dot and the empty string). */
  predicate IsFlacName(name: Name): (b: bool)
    ensures b <==> exists head: Name :: name == head + ".flac"
  {
    assert |name| >= 5 ==> name == name[..|name| - 5] + name[|name| - 5..];
    |name| >= 5 && name[|name| - 5..] == ".flac"
  }

  /** `f"{flac_path.stem}.mp3"` */
  function OutputName(name: Name): (r: Name)
  {
    Stem(name) + ".mp3"
  }

  /** The pattern's suffix removed again. */
  lemma FlacNameSplits(name: Name)
    requires IsFlacName(name)
    ensures name[..|name| - 5] + ".flac" == name
    ensures |name| == 5 <==> name == ".flac"
  {
    assert name == name[..|name| - 5] + name[|name| - 5..];
  }

  /** For every matching name but ".flac" itself the output name is the name
      with ".flac" replaced by ".mp3"; dots before it are kept, so "a.b.flac"
      becomes "a.b.mp3". The name ".flac" has no suffix in pathlib's sense and
      becomes ".flac.mp3". */
  lemma OutputNameOfFlac(name: Name)
    requires IsFlacName(name)
    ensures name != ".flac" ==> OutputName(name) == name[..|name| - 5] + ".mp3"
    ensures name == ".flac" ==> OutputName(name) == ".flac.mp3"
  {
    FlacNameSplits(name);
    if name == ".flac" {
      StemOfDotName("flac");
    } else {
      var base := name[..|name| - 5];
      assert name == base + "." + "flac";
      StemRemovesLastSuffix(base, "flac");
    }
  }

  /** A common tail can be cancelled from two strings. */
  lemma AppendCancel(x: string, y: string, tail: string)
    requires x + tail == y + tail
    ensures x == y
  {
    assert x == (x + tail)[..|x|];
  }

  /** What is left of a matching name in its output name, before ".mp3". */
  function KeptPart(name: Name): Name
    requires IsFlacName(name)
  {
    if name == ".flac" then name else name[..|name| - 5]
  }

  /** The output name of a matching name is its kept part and ".mp3". */
  lemma OutputNameKeeps(name: Name)
    requires IsFlacName(name)
    ensures OutputName(name) == KeptPart(name) + ".mp3"
  {
    OutputNameOfFlac(name);
  }

  /** Two matching names get the same output name exactly when they are
      equal or are the pair ".flac" and ".flac.flac". */
  lemma OutputNameCollision(a: Name, b: Name)
    requires IsFlacName(a) && IsFlacName(b)
    ensures OutputName(a) == OutputName(b) <==>
            a == b || (a == ".flac" && b == ".flac.flac") || (a == ".flac.flac" && b == ".flac")
  {
    OutputNameKeeps(a);
    OutputNameKeeps(b);
    if OutputName(a) == OutputName(b) {
      AppendCancel(KeptPart(a), KeptPart(b), ".mp3");
      KeptPartDetermines(a, b);
    }
    assert ".flac.flac"[..5] == ".flac";
  }

  /** The kept part determines the matching name, except that ".flac" and
      ".flac.flac" both keep ".flac". */
  lemma KeptPartDetermines(a: Name, b: Name)
    requires IsFlacName(a) && IsFlacName(b) && KeptPart(a) == KeptPart(b)
    ensures a == b || (a == ".flac" && b == ".flac.flac") || (a == ".flac.flac" && b == ".flac")
  {
    FlacNameSplits(a);
    FlacNameSplits(b);
    if a != ".flac" && b != ".flac" {
      assert a == KeptPart(a) + ".flac";
    } else if a == ".flac" && b != ".flac" {
      assert b == KeptPart(b) + ".flac" == ".flac" + ".flac";
    } else if a != ".flac" && b == ".flac" {
      assert a == KeptPart(a) + ".flac" == ".flac" + ".flac";
    }
  }

  /** One conversion: the FLAC file and the directory its MP3 is written to. */
  datatype Job = Job(source: Path, destDir: Path)

  /** `output_dir / f"{flac_path.stem}.mp3"` */
  function OutputPath(job: Job): (r: Path)
    ensures |r| == |job.destDir| + 1 && IsPrefix(job.destDir, r)
  {
    job.destDir + [OutputName(FileName(job.source))]
  }

  /** The job `main` submits for `source`: its directory is `output` followed
      by the parent of the source's path relative to `input`. */
  function PlanJob(input: Path, output: Path, source: Path): (job: Job)
    requires Below(input, source)
    ensures job.source == source
    ensures IsPrefix(output, job.destDir)
    ensures RelativeTo(job.destDir, output) + [FileName(source)] == RelativeTo(source, input)
  {
    Job(source, output + Parent(RelativeTo(source, input)))
  }

  /** A relative path with the ".flac" of its last component replaced by ".mp3". */
  function ReplaceExtension(rel: Path): Path
    requires rel != [] && IsFlacName(FileName(rel))
  {
    Parent(rel) + [FileName(rel)[..|FileName(rel)| - 5] + ".mp3"]
  }

  /** The way back: the relative path of the source an output came from. */
  function SourceRelative(outRel: Path): Path
    requires outRel != [] && |FileName(outRel)| >= 4
  {
    Parent(outRel) + [FileName(outRel)[..|FileName(outRel)| - 4] + ".flac"]
  }

  /** The output tree mirrors the input tree: under `output`, a job's output
      path is the source's path under `input` with ".flac" replaced by ".mp3",
      and the source's relative path can be recovered from it. */
  lemma OutputRoundTrip(input: Path, output: Path, source: Path)
    requires Below(input, source) && IsFlacName(FileName(source)) && FileName(source) != ".flac"
    ensures var out := OutputPath(PlanJob(input, output, source));
            var rel := RelativeTo(source, input);
            && IsPrefix(output, out)
            && rel != [] && FileName(rel) == FileName(source)
            && RelativeTo(out, output) == ReplaceExtension(rel)
            && SourceRelative(RelativeTo(out, output)) == rel
  {
    var name := FileName(source);
    var rel := RelativeTo(source, input);
    OutputNameOfFlac(name);
    FlacNameSplits(name);
    assert FileName(rel) == name;
    var out := OutputPath(PlanJob(input, output, source));
    assert out == output + (Parent(rel) + [name[..|name| - 5] + ".mp3"]);
    var outName := name[..|name| - 5] + ".mp3";
    assert outName[..|outName| - 4] == name[..|name| - 5];
    assert rel == Parent(rel) + [name];
  }

  /** Two paths extended by one component are equal exactly when the paths
      and the components are. */
  lemma SnocCancel(x: Path, y: Path, a: Name, b: Name)
    ensures x + [a] == y + [b] <==> x == y && a == b
  {
    if x + [a] == y + [b] {
      assert x == (x + [a])[..|x|];
      assert y == (y + [b])[..|y|];
    }
  }

  /** Two selected files get the same output path exactly when they are the
      same file or sit in the same directory as ".flac" and ".flac.flac".
      In particular distinct files with any other names never overwrite each
      other's output. */
  lemma OutputPathsCollide(input: Path, output: Path, s1: Path, s2: Path)
    requires Below(input, s1) && Below(input, s2)
    requires IsFlacName(FileName(s1)) && IsFlacName(FileName(s2))
    ensures OutputPath(PlanJob(input, output, s1)) == OutputPath(PlanJob(input, output, s2)) <==>
            s1 == s2 ||
            (Parent(s1) == Parent(s2) &&
             ((FileName(s1) == ".flac" && FileName(s2) == ".flac.flac") ||
              (FileName(s1) == ".flac.flac" && FileName(s2) == ".flac")))
  {
    OutputNameCollision(FileName(s1), FileName(s2));
    SameDestDir(input, output, s1, s2);
    OutputPathSplits(PlanJob(input, output, s1), PlanJob(input, output, s2));
    PathSplits(s1, s2);
  }

  /** Two output paths are equal exactly when the directories and the
      output names are. */
  lemma OutputPathSplits(j1: Job, j2: Job)
    ensures OutputPath(j1) == OutputPath(j2) <==>
            j1.destDir == j2.destDir && OutputName(FileName(j1.source)) == OutputName(FileName(j2.source))
  {
    SnocCancel(j1.destDir, j2.destDir, OutputName(FileName(j1.source)), OutputName(FileName(j2.source)));
  }

  /** Two non-empty paths are equal exactly when their parents and their
      names are. */
  lemma PathSplits(p1: Path, p2: Path)
    requires p1 != [] && p2 != []
    ensures p1 == p2 <==> Parent(p1) == Parent(p2) && FileName(p1) == FileName(p2)
  {
    ParentThenName(p1);
    ParentThenName(p2);
    SnocCancel(Parent(p1), Parent(p2), FileName(p1), FileName(p2));
  }

  /** Two files below the input root get the same destination directory
      exactly when they sit in the same directory. */
  lemma SameDestDir(input: Path, output: Path, s1: Path, s2: Path)
    requires Below(input, s1) && Below(input, s2)
    ensures PlanJob(input, output, s1).destDir == PlanJob(input, output, s2).destDir <==>
            Parent(s1) == Parent(s2)
  {
    var r1, r2 := Parent(RelativeTo(s1, input)), Parent(RelativeTo(s2, input));
    assert Parent(s1) == input + r1;
    assert Parent(s2) == input + r2;
    if output + r1 == output + r2 {
      assert r1 == (output + r1)[|output|..];
    }
  }

  /** The entries the recursive glob for `*.flac` yields: everything strictly
      below the input root, directories included, whose name matches. */
  function Matches(s: State, input: Path): (r: set<Path>)
    ensures r <= s.dirs + s.files
    ensures forall q :: q in r ==> Below(input, q) && IsFlacName(FileName(q))
  {
    set q | q in s.dirs + s.files && Below(input, q) && IsFlacName(FileName(q))
  }

  /** No path occurs twice in the list. */
  predicate NoDuplicates(ps: seq<Path>) {
    forall i, j :: 0 <= i < j < |ps| ==> ps[i] != ps[j]
  }

  /** The list of the recursive `*.flac` glob: every match exactly once, in
      the order the traversal happens to visit them. */
  method Glob(fs: FileSystem, input: Path) returns (found: seq<Path>)
    ensures forall q :: q in found <==> q in Matches(fs.Snapshot(), input)
    ensures NoDuplicates(found)
  {
    found := [];
    var pending := fs.dirs + fs.files;
    while pending != {}
      invariant pending <= fs.dirs + fs.files
      invariant forall q :: q in found <==> q in Matches(fs.Snapshot(), input) && q !in pending
      invariant NoDuplicates(found)
      decreases pending
    {
      var q :| q in pending;
      if Below(input, q) && IsFlacName(FileName(q)) {
        found := found + [q];
      }
      pending := pending - {q};
    }
  }

  /** The jobs `main`'s loop submits, one per discovered file, in order. */
  function Plan(input: Path, output: Path, found: seq<Path>): (jobs: seq<Job>)
    requires forall q :: q in found ==> Below(input, q)
    ensures |jobs| == |found|
    ensures forall i :: 0 <= i < |found| ==> jobs[i] == PlanJob(input, output, found[i])
  {
    seq(|found|, i requires 0 <= i < |found| => PlanJob(input, output, found[i]))
  }
}
