/** The converter's driver: `convert_flac_to_mp3`, which makes the output
    directory, transcodes one file and turns any failure into a logged error
    for that file alone, and `main`, which checks the input root, collects the
    FLAC files and submits one job per file. The jobs run one after another;
    the decoder and encoder are an oracle `codec`. */
module Flake {
  import opened Paths
  import opened Fs
  import opened Planner

  /** The decode-and-encode step: true when loading the source and exporting
      it to the destination both succeed. Loading opens the source for
      reading, so it is false for a source that is a directory. */
  type Codec = (Path, Path) -> bool

  /** The step of a job that raised. */
  datatype Stage = CreateDirectory | Transcode

  /** What a job logs at its end: the converted output, or the failing step. */
  datatype Outcome = Converted(output: Path) | Failed(stage: Stage)

  /** A job together with how it ended. */
  datatype JobResult = JobResult(job: Job, outcome: Outcome)

  /** One run of `convert_flac_to_mp3` on a tree. The output directory is
      made first; only then is the file transcoded and written. A failure in
      either step is caught: the job ends Failed and no output file is added
      (directories made before a failure stay). */
  function RunJob(s: State, blocked: set<Path>, codec: Codec, job: Job): (r: (JobResult, State))
    requires WellFormed(s)
    ensures r.0.job == job && WellFormed(r.1)
    ensures s.dirs <= r.1.dirs
    ensures r.1.files == if r.0.outcome.Converted? then s.files + {r.0.outcome.output} else s.files
    ensures r.0.outcome.Converted? ==>
              && r.0.outcome.output == OutputPath(job)
              && (forall k :: 0 <= k <= |job.destDir| ==> job.destDir[..k] in r.1.dirs)
    ensures r.0.outcome == Failed(CreateDirectory) <==> !Mkdir(s, blocked, job.destDir).ok
    ensures r.0.outcome.Converted? <==>
              && Mkdir(s, blocked, job.destDir).ok
              && codec(job.source, OutputPath(job))
              && OutputPath(job) !in Mkdir(s, blocked, job.destDir).dirs
    ensures r.1.dirs == Mkdir(s, blocked, job.destDir).dirs
  {
    var made := Mkdir(s, blocked, job.destDir);
    MkdirKeepsWellFormed(s, blocked, job.destDir);
    MkdirMakesAncestors(s, blocked, job.destDir);
    var afterMkdir := State(made.dirs, s.files);
    if !made.ok then
      (JobResult(job, Failed(CreateDirectory)), afterMkdir)
    else
      var out := OutputPath(job);
      assert job.destDir[..|job.destDir|] == job.destDir;
      if !codec(job.source, out) || out in made.dirs then
        (JobResult(job, Failed(Transcode)), afterMkdir)
      else
        (JobResult(job, Converted(out)), State(made.dirs, s.files + {out}))
  }

  /** The jobs run one after another, each on the tree the previous ones left. */
  function RunJobs(s: State, blocked: set<Path>, codec: Codec, jobs: seq<Job>): (r: (seq<JobResult>, State))
    requires WellFormed(s)
    ensures WellFormed(r.1)
    ensures |r.0| == |jobs| && forall i :: 0 <= i < |jobs| ==> r.0[i].job == jobs[i]
    ensures s.dirs <= r.1.dirs && s.files <= r.1.files
    decreases |jobs|
  {
    if jobs == [] then ([], s)
    else
      var before := RunJobs(s, blocked, codec, jobs[..|jobs| - 1]);
      var last := RunJob(before.1, blocked, codec, jobs[|jobs| - 1]);
      (before.0 + [last.0], last.1)
  }

  /** Running one more job of a list continues from the tree the earlier
      ones left. */
  lemma RunJobsExtend(s: State, blocked: set<Path>, codec: Codec, jobs: seq<Job>, i: int)
    requires WellFormed(s) && 0 <= i < |jobs|
    ensures var before := RunJobs(s, blocked, codec, jobs[..i]);
            var step := RunJob(before.1, blocked, codec, jobs[i]);
            RunJobs(s, blocked, codec, jobs[..i + 1]) == (before.0 + [step.0], step.1)
  {
    assert jobs[..i + 1][..i] == jobs[..i];
  }

  /** The outputs of the jobs that converted. */
  function ConvertedOutputs(results: seq<JobResult>): set<Path> {
    set i | 0 <= i < |results| && results[i].outcome.Converted? :: results[i].outcome.output
  }

  /** One more result adds its output exactly when it converted. */
  lemma ConvertedOutputsSnoc(rs: seq<JobResult>, x: JobResult)
    ensures ConvertedOutputs(rs + [x]) ==
            ConvertedOutputs(rs) + if x.outcome.Converted? then {x.outcome.output} else {}
  {
    var all := rs + [x];
    forall f | f in ConvertedOutputs(all)
      ensures f in ConvertedOutputs(rs) || (x.outcome.Converted? && f == x.outcome.output)
    {
      var i :| 0 <= i < |all| && all[i].outcome.Converted? && all[i].outcome.output == f;
      if i < |rs| {
        assert all[i] == rs[i];
      }
    }
    forall f | f in ConvertedOutputs(rs) ensures f in ConvertedOutputs(all) {
      var i :| 0 <= i < |rs| && rs[i].outcome.Converted? && rs[i].outcome.output == f;
      assert all[i] == rs[i];
    }
    if x.outcome.Converted? {
      assert all[|rs|] == x;
    }
  }

  /** After a batch, the files added are exactly the outputs of the jobs that
      converted: a failed job leaves no file behind. */
  lemma {:induction false} NewFilesAreConvertedOutputs(s: State, blocked: set<Path>, codec: Codec, jobs: seq<Job>)
    requires WellFormed(s)
    ensures var r := RunJobs(s, blocked, codec, jobs);
            r.1.files == s.files + ConvertedOutputs(r.0)
    decreases |jobs|
  {
    if jobs != [] {
      var init := jobs[..|jobs| - 1];
      NewFilesAreConvertedOutputs(s, blocked, codec, init);
      var before := RunJobs(s, blocked, codec, init);
      var last := RunJob(before.1, blocked, codec, jobs[|jobs| - 1]);
      ConvertedOutputsSnoc(before.0, last.0);
    }
  }

  /** `convert_flac_to_mp3(flac_path, output_dir)`. */
  method ConvertFlacToMp3(fs: FileSystem, flacPath: Path, outputDir: Path, codec: Codec) returns (result: JobResult)
    requires fs.Valid()
    modifies fs
    ensures fs.Valid()
    ensures (result, fs.Snapshot()) == RunJob(old(fs.Snapshot()), fs.blocked, codec, Job(flacPath, outputDir))
  {
    var job := Job(flacPath, outputDir);
    var made := fs.MkdirParents(outputDir);
    if !made {
      return JobResult(job, Failed(CreateDirectory));
    }
    var outputPath := outputDir + [OutputName(FileName(flacPath))];
    if !codec(flacPath, outputPath) {
      return JobResult(job, Failed(Transcode));
    }
    MkdirMakesAncestors(old(fs.Snapshot()), fs.blocked, outputDir);
    assert outputDir[..|outputDir|] == outputDir;
    var written := fs.WriteFile(outputPath);
    if !written {
      return JobResult(job, Failed(Transcode));
    }
    result := JobResult(job, Converted(outputPath));
  }

  /** The discovered files, in the order their jobs were submitted. */
  function Sources(results: seq<JobResult>): (sources: seq<Path>)
    ensures |sources| == |results|
    ensures forall i :: 0 <= i < |results| ==> sources[i] == results[i].job.source
  {
    seq(|results|, i requires 0 <= i < |results| => results[i].job.source)
  }

  /** Results that carry the planned jobs, in order, name the discovered
      files in the order they were found. */
  lemma PlannedSources(input: Path, output: Path, found: seq<Path>, results: seq<JobResult>)
    requires forall q :: q in found ==> Below(input, q)
    requires |results| == |found|
    requires forall i :: 0 <= i < |found| ==> results[i].job == Plan(input, output, found)[i]
    ensures Sources(results) == found
  {
    var jobs := Plan(input, output, found);
    assert forall i :: 0 <= i < |found| ==> Sources(results)[i] == jobs[i].source == found[i];
  }

  /** The submission loop of `main`: one job per discovered file, in the
      order of the list, each job's directory being `output` followed by the
      parent of the file's path relative to `input`. */
  method SubmitAll(fs: FileSystem, input: Path, output: Path, found: seq<Path>, codec: Codec)
    returns (results: seq<JobResult>)
    requires fs.Valid()
    requires forall q :: q in found ==> Below(input, q)
    modifies fs
    ensures fs.Valid()
    ensures (results, fs.Snapshot()) == RunJobs(old(fs.Snapshot()), fs.blocked, codec, Plan(input, output, found))
  {
    ghost var jobs := Plan(input, output, found);
    ghost var s0 := fs.Snapshot();
    results := [];
    var i := 0;
    while i < |found|
      invariant 0 <= i <= |found|
      invariant fs.Valid()
      invariant results == RunJobs(s0, fs.blocked, codec, jobs[..i]).0
      invariant fs.Snapshot() == RunJobs(s0, fs.blocked, codec, jobs[..i]).1
    {
      var relativePath := RelativeTo(found[i], input);
      var outputSubdir := output + Parent(relativePath);
      assert Job(found[i], outputSubdir) == jobs[i];
      var result := ConvertFlacToMp3(fs, found[i], outputSubdir, codec);
      RunJobsExtend(s0, fs.blocked, codec, jobs, i);
      results := results + [result];
      i := i + 1;
    }
    assert jobs[..|found|] == jobs;
  }

  /** How `main` ends: it returns early after logging an error or a
      warning, or it runs the batch. */
  datatype Status = InputNotADirectory | NoFlacFiles | Completed

  /** `main` once its arguments are parsed: the input root must be a
      directory; the FLAC files below it are collected; each gets one job. */
  method RunBatch(fs: FileSystem, input: Path, output: Path, codec: Codec) returns (status: Status, results: seq<JobResult>)
    requires fs.Valid()
    modifies fs
    ensures fs.Valid()
    ensures status == InputNotADirectory <==> input !in old(fs.dirs)
    ensures status == NoFlacFiles <==> input in old(fs.dirs) && Matches(old(fs.Snapshot()), input) == {}
    ensures status != Completed ==> results == [] && fs.Snapshot() == old(fs.Snapshot())
    ensures status == Completed ==>
              && results != []
              && (forall q :: q in Sources(results) <==> q in Matches(old(fs.Snapshot()), input))
              && NoDuplicates(Sources(results))
              && (forall q :: q in Sources(results) ==> Below(input, q))
              && (results, fs.Snapshot()) ==
                 RunJobs(old(fs.Snapshot()), fs.blocked, codec, Plan(input, output, Sources(results)))
  {
    if input !in fs.dirs {
      return InputNotADirectory, [];
    }
    var found := Glob(fs, input);
    if found == [] {
      assert forall q :: q !in Matches(fs.Snapshot(), input);
      return NoFlacFiles, [];
    }
    assert found[0] in Matches(fs.Snapshot(), input);
    results := SubmitAll(fs, input, output, found, codec);
    PlannedSources(input, output, found, results);
    status := Completed;
  }

  /** Prefix-free outputs: no job's output path is, or is an ancestor of,
      any job's destination directory. */
  ghost predicate NoConflicts(jobs: seq<Job>) {
    forall a, c :: a in jobs && c in jobs ==> !IsPrefix(OutputPath(a), c.destDir)
  }

  /** `s` is what the jobs `done` can have made of `s0`: directories and files
      were only added; every added directory is an ancestor of some done job's
      destination and was not refused; every added file is a done job's output. */
  ghost predicate Reached(s0: State, s: State, blocked: set<Path>, done: seq<Job>) {
    && s0.dirs <= s.dirs
    && s0.files <= s.files
    && (forall d :: d in s.dirs && d !in s0.dirs ==>
          d !in blocked && exists a :: a in done && IsPrefix(d, a.destDir))
    && (forall f :: f in s.files && f !in s0.files ==>
          exists a :: a in done && f == OutputPath(a))
  }

  /** A job whose paths do not clash with the outputs of the jobs before it
      ends the same way on the tree those jobs left as on the original tree. */
  lemma StepKeepsOutcome(s0: State, s: State, blocked: set<Path>, codec: Codec, done: seq<Job>, job: Job)
    requires WellFormed(s0) && WellFormed(s) && Reached(s0, s, blocked, done)
    requires NoConflicts(done + [job])
    ensures RunJob(s, blocked, codec, job).0 == RunJob(s0, blocked, codec, job).0
    ensures Reached(s0, RunJob(s, blocked, codec, job).1, blocked, done + [job])
  {
    var p := job.destDir;
    var out := OutputPath(job);
    assert job in done + [job];
    assert forall a :: a in done ==> a in done + [job];
    forall k | 0 <= k <= |p|
      ensures Creatable(s, blocked, p[..k]) == Creatable(s0, blocked, p[..k])
    {
      assert IsPrefix(p[..k], p);
    }
    MkdirSucceedsIff(s, blocked, p);
    MkdirSucceedsIff(s0, blocked, p);
    assert out in s.dirs <==> out in s0.dirs;
    var after := RunJob(s, blocked, codec, job).1;
    forall d | d in after.dirs && d !in s0.dirs
      ensures d !in blocked && exists a :: a in done + [job] && IsPrefix(d, a.destDir)
    {
      if d in s.dirs {
        var a :| a in done && IsPrefix(d, a.destDir);
        assert a in done + [job];
      } else {
        assert IsPrefix(d, job.destDir);
      }
    }
    forall f | f in after.files && f !in s0.files
      ensures exists a :: a in done + [job] && f == OutputPath(a)
    {
      if f in s.files {
        var a :| a in done && f == OutputPath(a);
        assert a in done + [job];
      } else {
        assert f == OutputPath(job);
      }
    }
  }

  /** Fault isolation: when no job's output path is an ancestor of, or equal
      to, a job's destination directory, every job in the batch ends exactly as
      it would have run alone on the original tree. What other jobs do (or how
      they fail) then never changes a job's outcome, and neither does the order
      in which the jobs run. */
  lemma {:induction false} FaultIsolation(s0: State, blocked: set<Path>, codec: Codec, jobs: seq<Job>)
    requires WellFormed(s0) && NoConflicts(jobs)
    ensures Reached(s0, RunJobs(s0, blocked, codec, jobs).1, blocked, jobs)
    ensures forall i :: 0 <= i < |jobs| ==>
              RunJobs(s0, blocked, codec, jobs).0[i] == RunJob(s0, blocked, codec, jobs[i]).0
    decreases |jobs|
  {
    if jobs != [] {
      var init := jobs[..|jobs| - 1];
      var job := jobs[|jobs| - 1];
      assert init + [job] == jobs;
      assert forall a :: a in init ==> a in jobs;
      FaultIsolation(s0, blocked, codec, init);
      var before := RunJobs(s0, blocked, codec, init);
      StepKeepsOutcome(s0, before.1, blocked, codec, init, job);
    }
  }

  /** The batch seen job by job: without conflicts, job `i` converts exactly
      when its directory can be made on the original tree, the codec accepts
      it and its output path is not a directory there; it fails at the
      directory step exactly when that mkdir fails. So one unreadable file
      among many fails alone and the rest convert. */
  lemma {:induction false} BatchOutcomes(s0: State, blocked: set<Path>, codec: Codec, jobs: seq<Job>, i: int)
    requires WellFormed(s0) && NoConflicts(jobs) && 0 <= i < |jobs|
    ensures var made := Mkdir(s0, blocked, jobs[i].destDir);
            var out := RunJobs(s0, blocked, codec, jobs).0[i].outcome;
            && (out.Converted? <==> made.ok && codec(jobs[i].source, OutputPath(jobs[i])) && OutputPath(jobs[i]) !in made.dirs)
            && (out == Failed(CreateDirectory) <==> !made.ok)
            && (out.Converted? ==> out.output == OutputPath(jobs[i]))
  {
    FaultIsolation(s0, blocked, codec, jobs);
  }

  /** A tree whose input holds "in/x.flac" and the directory "in/x.mp3"
      with "in/x.mp3/y.flac" in it. */
  function CoupledTree(): State {
    State({[], ["in"], ["in", "x.mp3"]}, {["in", "x.flac"], ["in", "x.mp3", "y.flac"]})
  }

  /** The coupled tree is a real tree. */
  lemma CoupledTreeWellFormed()
    ensures WellFormed(CoupledTree())
  {
    var s := CoupledTree();
    assert Parent(["in"]) == [] && Parent(["in", "x.mp3"]) == ["in"];
    assert Parent(["in", "x.flac"]) == ["in"] && Parent(["in", "x.mp3", "y.flac"]) == ["in", "x.mp3"];
    assert ["in"] != ["in", "x.flac"] && ["in", "x.mp3"] != ["in", "x.flac"];
    assert ["in", "x.mp3"] != ["in", "x.mp3", "y.flac"];
  }

  /** "base.flac" becomes "base.mp3" for any non-empty base. */
  lemma FlacOutputName(base: Name)
    requires base != ""
    ensures OutputName(base + ".flac") == base + ".mp3"
  {
    var name := base + ".flac";
    assert name[|name| - 5..] == ".flac" && name[..|name| - 5] == base;
    OutputNameOfFlac(name);
  }

  /** The output names of the two files of the coupled tree. */
  lemma CoupledOutputNames()
    ensures OutputName("x.flac") == "x.mp3" && OutputName("y.flac") == "y.mp3"
  {
    FlacOutputName("x");
    FlacOutputName("y");
    assert "x" + ".flac" == "x.flac" && "x" + ".mp3" == "x.mp3";
    assert "y" + ".flac" == "y.flac" && "y" + ".mp3" == "y.mp3";
  }

  /** The two planned jobs of the coupled tree and their output paths. */
  lemma CoupledJobs() returns (a: Job, b: Job)
    ensures a == PlanJob(["in"], ["out"], ["in", "x.flac"])
    ensures b == PlanJob(["in"], ["out"], ["in", "x.mp3", "y.flac"])
    ensures a == Job(["in", "x.flac"], ["out"]) && OutputPath(a) == ["out", "x.mp3"]
    ensures b == Job(["in", "x.mp3", "y.flac"], ["out", "x.mp3"]) && OutputPath(b) == ["out", "x.mp3", "y.mp3"]
  {
    CoupledOutputNames();
    a := PlanJob(["in"], ["out"], ["in", "x.flac"]);
    b := PlanJob(["in"], ["out"], ["in", "x.mp3", "y.flac"]);
    assert RelativeTo(["in", "x.flac"], ["in"]) == ["x.flac"];
    assert RelativeTo(["in", "x.mp3", "y.flac"], ["in"]) == ["x.mp3", "y.flac"];
    assert Parent(["x.flac"]) == [] && Parent(["x.mp3", "y.flac"]) == ["x.mp3"];
    assert FileName(["in", "x.flac"]) == "x.flac" && FileName(["in", "x.mp3", "y.flac"]) == "y.flac";
  }

  /** The codec that accepts every job. */
  function AcceptAll(): Codec {
    (src: Path, dst: Path) => true
  }

  /** Run alone on the coupled tree, the job for "in/x.mp3/y.flac" converts. */
  lemma CoupledSecondAlone(b: Job)
    requires b == Job(["in", "x.mp3", "y.flac"], ["out", "x.mp3"])
    requires OutputPath(b) == ["out", "x.mp3", "y.mp3"]
    ensures WellFormed(CoupledTree())
    ensures RunJob(CoupledTree(), {}, AcceptAll(), b).0.outcome.Converted?
    ensures ["out", "x.mp3"] in RunJob(CoupledTree(), {}, AcceptAll(), b).1.dirs
  {
    CoupledTreeWellFormed();
    var s0 := CoupledTree();
    assert Mkdir(s0, {}, ["out"]) == MkdirResult(true, s0.dirs + {["out"]});
    assert Mkdir(s0, {}, ["out", "x.mp3"]) == MkdirResult(true, s0.dirs + {["out"], ["out", "x.mp3"]});
  }

  /** "in/x.flac" first: its output file "out/x.mp3" blocks the directory
      the second job needs. */
  lemma CoupledInOrder(a: Job, b: Job)
    requires a == Job(["in", "x.flac"], ["out"]) && OutputPath(a) == ["out", "x.mp3"]
    requires b == Job(["in", "x.mp3", "y.flac"], ["out", "x.mp3"])
    ensures WellFormed(CoupledTree())
    ensures RunJobs(CoupledTree(), {}, AcceptAll(), [a, b]).0[1].outcome == Failed(CreateDirectory)
  {
    CoupledTreeWellFormed();
    var s0 := CoupledTree();
    assert Mkdir(s0, {}, ["out"]) == MkdirResult(true, s0.dirs + {["out"]});
    var afterA := RunJob(s0, {}, AcceptAll(), a).1;
    assert afterA == State(s0.dirs + {["out"]}, s0.files + {["out", "x.mp3"]});
    assert [a, b][..1] == [a] && [a][..0] == [];
    assert RunJobs(s0, {}, AcceptAll(), [a]).1 == afterA;
    assert !Mkdir(afterA, {}, ["out", "x.mp3"]).ok;
  }

  /** "in/x.mp3/y.flac" first: the directory it makes at "out/x.mp3" leaves
      the first job no place for its output file. */
  lemma CoupledInReverse(a: Job, b: Job)
    requires a == Job(["in", "x.flac"], ["out"]) && OutputPath(a) == ["out", "x.mp3"]
    requires b == Job(["in", "x.mp3", "y.flac"], ["out", "x.mp3"])
    requires OutputPath(b) == ["out", "x.mp3", "y.mp3"]
    ensures WellFormed(CoupledTree())
    ensures RunJobs(CoupledTree(), {}, AcceptAll(), [b, a]).0[1].outcome == Failed(Transcode)
  {
    CoupledSecondAlone(b);
    var s0 := CoupledTree();
    var afterB := RunJob(s0, {}, AcceptAll(), b).1;
    assert [b, a][..1] == [b] && [b][..0] == [];
    assert RunJobs(s0, {}, AcceptAll(), [b]).1 == afterB;
    assert ["out"] in afterB.dirs;
  }

  /** Without that condition the jobs are coupled through the output tree:
      for the input files "in/x.flac" and "in/x.mp3/y.flac", the first job
      writes the file "out/x.mp3" while the second needs a directory there.
      Alone the second job converts; after the first it fails to make its
      directory; in the other order the first fails to write its output. */
  lemma SharedOutputTreeCouplesJobs()
    ensures var a := PlanJob(["in"], ["out"], ["in", "x.flac"]);
            var b := PlanJob(["in"], ["out"], ["in", "x.mp3", "y.flac"]);
            && WellFormed(CoupledTree())
            && RunJob(CoupledTree(), {}, AcceptAll(), b).0.outcome.Converted?
            && RunJobs(CoupledTree(), {}, AcceptAll(), [a, b]).0[1].outcome == Failed(CreateDirectory)
            && RunJobs(CoupledTree(), {}, AcceptAll(), [b, a]).0[1].outcome == Failed(Transcode)
  {
    var a, b := CoupledJobs();
    CoupledSecondAlone(b);
    CoupledInOrder(a, b);
    CoupledInReverse(a, b);
  }
}
