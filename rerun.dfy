/** Running the converter again over the same roots: every job of the first
    run finds its directory made and its output written (or fails exactly as
    before), so a second batch over those jobs, in any order, leaves the tree
    as the first one left it. For the whole program this is proved when the
    input and output roots lie apart and when they are one root. */
module Rerun {
  import opened Paths
  import opened Fs
  import opened Planner
  import opened Flake

  /** Running `job` on `s` has nothing left to do: its mkdir creates nothing,
      and if it would convert, its output is already a file. */
  ghost predicate Settled(s: State, blocked: set<Path>, codec: Codec, job: Job) {
    var made := Mkdir(s, blocked, job.destDir);
    && made.dirs == s.dirs
    && (made.ok && codec(job.source, OutputPath(job)) && OutputPath(job) !in s.dirs ==>
          OutputPath(job) in s.files)
  }

  /** `s2` is `s` plus files and plus directories the system allowed. */
  ghost predicate Grows(s: State, s2: State, blocked: set<Path>) {
    && s.dirs <= s2.dirs
    && s.files <= s2.files
    && (forall d :: d in s2.dirs && d !in s.dirs ==> d !in blocked)
  }

  /** After a job has run, running it again has nothing left to do. */
  lemma RunJobSettles(s: State, blocked: set<Path>, codec: Codec, job: Job)
    requires WellFormed(s)
    ensures Grows(s, RunJob(s, blocked, codec, job).1, blocked)
    ensures Settled(RunJob(s, blocked, codec, job).1, blocked, codec, job)
  {
    var made := Mkdir(s, blocked, job.destDir);
    MkdirAgain(s, blocked, job.destDir);
    MkdirKeepsWellFormed(s, blocked, job.destDir);
    var after := RunJob(s, blocked, codec, job).1;
    MkdirSettledGrows(State(made.dirs, s.files), after, blocked, job.destDir);
  }

  /** A settled job stays settled while the tree grows. */
  lemma SettledGrows(s: State, s2: State, blocked: set<Path>, codec: Codec, job: Job)
    requires WellFormed(s) && WellFormed(s2) && Grows(s, s2, blocked)
    requires Settled(s, blocked, codec, job)
    ensures Settled(s2, blocked, codec, job)
  {
    MkdirSettledGrows(s, s2, blocked, job.destDir);
  }

  /** After a batch every one of its jobs is settled on the tree it left. */
  lemma {:induction false} BatchSettles(s0: State, blocked: set<Path>, codec: Codec, jobs: seq<Job>)
    requires WellFormed(s0)
    ensures forall j :: j in jobs ==> Settled(RunJobs(s0, blocked, codec, jobs).1, blocked, codec, j)
    decreases |jobs|
  {
    if jobs != [] {
      var init, job := jobs[..|jobs| - 1], jobs[|jobs| - 1];
      BatchSettles(s0, blocked, codec, init);
      var before := RunJobs(s0, blocked, codec, init).1;
      var after := RunJob(before, blocked, codec, job).1;
      RunJobSettles(before, blocked, codec, job);
      forall j | j in jobs
        ensures Settled(after, blocked, codec, j)
      {
        if j != job {
          assert j in init;
          SettledGrows(before, after, blocked, codec, j);
        }
      }
    }
  }

  /** Jobs that are all settled on `s` leave `s` as it is. */
  lemma {:induction false} SettledJobsChangeNothing(s: State, blocked: set<Path>, codec: Codec, again: seq<Job>)
    requires WellFormed(s)
    requires forall j :: j in again ==> Settled(s, blocked, codec, j)
    ensures RunJobs(s, blocked, codec, again).1 == s
    decreases |again|
  {
    if again != [] {
      var init := again[..|again| - 1];
      assert forall j :: j in init ==> j in again;
      SettledJobsChangeNothing(s, blocked, codec, init);
      var job := again[|again| - 1];
      assert job in again;
      var after := RunJob(s, blocked, codec, job).1;
      assert after.dirs == s.dirs && after.files == s.files;
    }
  }

  /** Idempotence of a batch: running again any of its jobs, in any order
      and with repeats, on the tree it left changes nothing. */
  lemma RerunChangesNothing(s0: State, blocked: set<Path>, codec: Codec, jobs: seq<Job>, again: seq<Job>)
    requires WellFormed(s0)
    requires forall j :: j in again ==> j in jobs
    ensures RunJobs(RunJobs(s0, blocked, codec, jobs).1, blocked, codec, again).1 ==
            RunJobs(s0, blocked, codec, jobs).1
  {
    BatchSettles(s0, blocked, codec, jobs);
    SettledJobsChangeNothing(RunJobs(s0, blocked, codec, jobs).1, blocked, codec, again);
  }

  /** What a batch adds, whatever its outcomes: every new directory is an
      ancestor of (or is) some job's directory and was not refused, and
      every new file is some job's output. */
  lemma {:induction false} BatchFootprint(s0: State, blocked: set<Path>, codec: Codec, jobs: seq<Job>)
    requires WellFormed(s0)
    ensures Reached(s0, RunJobs(s0, blocked, codec, jobs).1, blocked, jobs)
    decreases |jobs|
  {
    if jobs != [] {
      var init, job := jobs[..|jobs| - 1], jobs[|jobs| - 1];
      assert init + [job] == jobs;
      BatchFootprint(s0, blocked, codec, init);
      var before := RunJobs(s0, blocked, codec, init).1;
      var after := RunJob(before, blocked, codec, job).1;
      forall d | d in after.dirs && d !in s0.dirs
        ensures d !in blocked && exists a :: a in jobs && IsPrefix(d, a.destDir)
      {
        if d in before.dirs {
          var a :| a in init && IsPrefix(d, a.destDir);
          assert a in jobs;
        } else {
          assert IsPrefix(d, job.destDir) && job in jobs;
        }
      }
      forall f | f in after.files && f !in s0.files
        ensures exists a :: a in jobs && f == OutputPath(a)
      {
        if f in before.files {
          var a :| a in init && f == OutputPath(a);
          assert a in jobs;
        } else {
          assert f == OutputPath(job) && job in jobs;
        }
      }
    }
  }

  /** Two prefixes of one path are comparable: one is a prefix of the other. */
  lemma PrefixesOfOnePath(a: Path, b: Path, x: Path)
    ensures IsPrefix(a, x) && IsPrefix(b, x) ==> IsPrefix(a, b) || IsPrefix(b, a)
  {
    assert IsPrefix(a, x) && IsPrefix(b, x) && |a| <= |b| ==> b[..|a|] == x[..|a|];
    assert IsPrefix(a, x) && IsPrefix(b, x) && |b| <= |a| ==> a[..|b|] == x[..|b|];
  }

  /** With input and output roots apart (neither inside the other), a path
      on the way to, at or below a directory under the output root is never
      strictly below the input root. */
  lemma ApartRootsSeparate(input: Path, output: Path, q: Path, d: Path)
    requires !IsPrefix(input, output) && !IsPrefix(output, input)
    requires IsPrefix(output, d) && (IsPrefix(q, d) || IsPrefix(d, q))
    ensures !Below(input, q)
  {
    var x := if |q| <= |d| then d else q;
    PrefixesOfOnePath(input, output, x);
    assert IsPrefix(output, x);
    assert Below(input, q) ==> IsPrefix(input, x);
  }

  /** With the roots apart, nothing a batch of jobs under the output root
      makes lies below the input root. */
  lemma BatchStaysApart(s0: State, blocked: set<Path>, codec: Codec, input: Path, output: Path, jobs: seq<Job>)
    requires WellFormed(s0)
    requires !IsPrefix(input, output) && !IsPrefix(output, input)
    requires forall a :: a in jobs ==> IsPrefix(output, a.destDir)
    ensures var after := RunJobs(s0, blocked, codec, jobs).1;
            forall q :: q in after.dirs + after.files && Below(input, q) ==> q in s0.dirs + s0.files
  {
    var after := RunJobs(s0, blocked, codec, jobs).1;
    BatchFootprint(s0, blocked, codec, jobs);
    forall q | q in after.dirs + after.files && q !in s0.dirs + s0.files
      ensures !Below(input, q)
    {
      var a :| a in jobs && (IsPrefix(q, a.destDir) || q == OutputPath(a));
      assert q == OutputPath(a) ==> IsPrefix(a.destDir, q);
      ApartRootsSeparate(input, output, q, a.destDir);
    }
  }

  /** With the roots apart, the glob of a second run finds exactly what the
      first one found. */
  lemma RediscoveryUnchanged(s0: State, blocked: set<Path>, codec: Codec, input: Path, output: Path, found: seq<Path>)
    requires WellFormed(s0)
    requires !IsPrefix(input, output) && !IsPrefix(output, input)
    requires forall q :: q in found ==> Below(input, q)
    ensures Matches(RunJobs(s0, blocked, codec, Plan(input, output, found)).1, input) == Matches(s0, input)
  {
    var jobs := Plan(input, output, found);
    forall a | a in jobs
      ensures IsPrefix(output, a.destDir)
    {
      var i :| 0 <= i < |jobs| && jobs[i] == a;
    }
    BatchStaysApart(s0, blocked, codec, input, output, jobs);
  }

  /** Running the whole converter a second time over the same roots, kept
      apart, changes nothing: the second glob lists the same files, in
      whatever order, and their jobs find nothing left to do. */
  lemma RerunBatchChangesNothing(s0: State, blocked: set<Path>, codec: Codec, input: Path, output: Path,
                                 found: seq<Path>, again: seq<Path>)
    requires WellFormed(s0)
    requires !IsPrefix(input, output) && !IsPrefix(output, input)
    requires forall q :: q in found <==> q in Matches(s0, input)
    requires forall q :: q in again ==> q in Matches(RunJobs(s0, blocked, codec, Plan(input, output, found)).1, input)
    ensures var after := RunJobs(s0, blocked, codec, Plan(input, output, found)).1;
            && (forall q :: q in again ==> q in found)
            && RunJobs(after, blocked, codec, Plan(input, output, again)).1 == after
  {
    var jobs := Plan(input, output, found);
    RediscoveryUnchanged(s0, blocked, codec, input, output, found);
    assert forall q :: q in again ==> q in found;
    PlanOfFewer(input, output, found, again);
    RerunChangesNothing(s0, blocked, codec, jobs, Plan(input, output, again));
  }

  /** Files drawn from a discovered list get jobs from that list's plan. */
  lemma PlanOfFewer(input: Path, output: Path, found: seq<Path>, again: seq<Path>)
    requires forall q :: q in found ==> Below(input, q)
    requires forall q :: q in again ==> q in found
    ensures forall j :: j in Plan(input, output, again) ==> j in Plan(input, output, found)
  {
    var jobs, rerun := Plan(input, output, found), Plan(input, output, again);
    forall j | j in rerun
      ensures j in jobs
    {
      var i :| 0 <= i < |again| && rerun[i] == j;
      assert again[i] in again;
      var k :| 0 <= k < |found| && found[k] == again[i];
      assert rerun[i] == PlanJob(input, output, again[i]);
      assert jobs[k] == PlanJob(input, output, found[k]);
    }
  }

  /** An output name never matches `*.flac`: it ends in `.mp3`. */
  lemma OutputNameNotFlac(name: Name)
    ensures !IsFlacName(OutputName(name))
  {
    var out := OutputName(name);
    assert out[|out| - 1] == '3';
    if IsFlacName(out) {
      FlacNameEndsInC(out);
    }
  }

  /** No output path is named `*.flac`. */
  lemma OutputPathNotFlac(job: Job)
    ensures !IsFlacName(FileName(OutputPath(job)))
  {
    assert FileName(OutputPath(job)) == OutputName(FileName(job.source));
    OutputNameNotFlac(FileName(job.source));
  }

  /** A name matching `*.flac` ends in `c`. */
  lemma FlacNameEndsInC(name: Name)
    requires IsFlacName(name)
    ensures name[|name| - 1] == 'c'
  {
    FlacNameSplits(name);
    assert (name[..|name| - 5] + ".flac")[|name| - 1] == 'c';
  }

  /** With one root for input and output, a selected entry's job writes into
      the directory the entry already lies in. */
  lemma SameRootJobDir(s: State, root: Path, source: Path)
    requires WellFormed(s)
    requires source in s.dirs + s.files && Below(root, source)
    ensures PlanJob(root, root, source).destDir in s.dirs
  {
    var rel := RelativeTo(source, root);
    assert root + Parent(rel) == Parent(source) by {
      assert Parent(rel) + [rel[|rel| - 1]] == rel;
      assert Parent(source) + [source[|source| - 1]] == source;
      assert root + Parent(rel) == source[..|source| - 1];
    }
  }

  /** Jobs whose directories all exist create no directory. */
  lemma {:induction false} NoNewDirs(s0: State, blocked: set<Path>, codec: Codec, jobs: seq<Job>)
    requires WellFormed(s0)
    requires forall a :: a in jobs ==> a.destDir in s0.dirs
    ensures RunJobs(s0, blocked, codec, jobs).1.dirs == s0.dirs
    decreases |jobs|
  {
    if jobs != [] {
      var init, job := jobs[..|jobs| - 1], jobs[|jobs| - 1];
      assert forall a :: a in init ==> a in jobs;
      NoNewDirs(s0, blocked, codec, init);
      var before := RunJobs(s0, blocked, codec, init).1;
      assert job in jobs;
      MkdirIdempotent(before, blocked, job.destDir);
    }
  }

  /** With one root for input and output, the glob of a second run finds
      exactly what the first one found: every job's directory already
      exists, and every file the batch writes is named `*.mp3`. */
  lemma SameRootRediscovery(s0: State, blocked: set<Path>, codec: Codec, root: Path, found: seq<Path>)
    requires WellFormed(s0)
    requires forall q :: q in found ==> q in Matches(s0, root)
    ensures forall q :: q in found ==> Below(root, q)
    ensures Matches(RunJobs(s0, blocked, codec, Plan(root, root, found)).1, root) == Matches(s0, root)
  {
    var jobs := Plan(root, root, found);
    SameRootJobDirs(s0, root, found);
    var after := RunJobs(s0, blocked, codec, jobs).1;
    NoNewDirs(s0, blocked, codec, jobs);
    BatchFootprint(s0, blocked, codec, jobs);
    forall q | q in after.files && q !in s0.files
      ensures !IsFlacName(FileName(q))
    {
      assert exists a :: a in jobs && q == OutputPath(a);
      var a :| a in jobs && q == OutputPath(a);
      OutputPathNotFlac(a);
    }
    MatchesUnchanged(s0, after, root);
  }

  /** With one root for input and output, every planned job's directory
      already exists. */
  lemma SameRootJobDirs(s0: State, root: Path, found: seq<Path>)
    requires WellFormed(s0)
    requires forall q :: q in found ==> q in Matches(s0, root)
    ensures forall q :: q in found ==> Below(root, q)
    ensures forall a :: a in Plan(root, root, found) ==> a.destDir in s0.dirs
  {
    var jobs := Plan(root, root, found);
    forall a | a in jobs
      ensures a.destDir in s0.dirs
    {
      var i :| 0 <= i < |jobs| && jobs[i] == a;
      assert found[i] in found;
      SameRootJobDir(s0, root, found[i]);
    }
  }

  /** Adding only files that do not match `*.flac` leaves the matches as they are. */
  lemma MatchesUnchanged(s0: State, after: State, root: Path)
    requires after.dirs == s0.dirs && s0.files <= after.files
    requires forall q :: q in after.files && q !in s0.files ==> !IsFlacName(FileName(q))
    ensures Matches(after, root) == Matches(s0, root)
  {
  }

  /** Running the whole converter a second time with input and output at one
      root changes nothing: the second glob lists only files of the first
      list, in whatever order, and their jobs find nothing left to do. */
  lemma SameRootRerunChangesNothing(s0: State, blocked: set<Path>, codec: Codec, root: Path,
                                    found: seq<Path>, again: seq<Path>)
    requires WellFormed(s0)
    requires forall q :: q in found <==> q in Matches(s0, root)
    requires forall q :: q in again ==> q in Matches(RunJobs(s0, blocked, codec, Plan(root, root, found)).1, root)
    ensures var after := RunJobs(s0, blocked, codec, Plan(root, root, found)).1;
            && (forall q :: q in again ==> q in found)
            && RunJobs(after, blocked, codec, Plan(root, root, again)).1 == after
  {
    var jobs := Plan(root, root, found);
    SameRootRediscovery(s0, blocked, codec, root, found);
    assert forall q :: q in again ==> q in found;
    PlanOfFewer(root, root, found, again);
    RerunChangesNothing(s0, blocked, codec, jobs, Plan(root, root, again));
  }
}
