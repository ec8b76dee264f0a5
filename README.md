# flake: a Dafny model of the FLAC-to-MP3 batch converter

`flake.py` converts every FLAC file below an input directory into an MP3 below
an output directory. The output tree mirrors the input tree. This project models
the logic around the audio conversion and proves properties of it:

- which entries are selected (the recursive glob for `*.flac`);
- where each one's MP3 goes (`relative_to`, `.parent`, the `/` join and `stem + ".mp3"`);
- the per-file pipeline `convert_flac_to_mp3`: `mkdir(parents=True, exist_ok=True)`,
  then transcode, with any failure caught at the job boundary;
- the driver `main`: its two early returns and its submission loop.

Modules:

- `Paths` (`paths.dfy`) models the pathlib operations used. A path is a
  sequence of component strings, and the empty path is the top of the tree.
  `Stem` follows pathlib as of CPython 3.13 and earlier: the last dot starts a
  suffix only when it is neither the first nor the last character of the name.
- `Fs` (`fs.dfy`) holds a snapshot `State` of the tree (its directories and its
  files) and `Mkdir`, the recursive algorithm of `Path.mkdir(parents=True,
  exist_ok=True)`. It also holds the class `FileSystem`, whose `dirs` and
  `files` fields are updated in place by `MkdirParents` and `WriteFile`.
  `blocked` is the set of paths where the system refuses to create a directory
  (permissions, a full disk).
- `Planner` (`planner.dfy`) covers selection (`Glob`, which lists the matches
  in an arbitrary traversal order), the job plan and the output names.
- `Flake` (`flake.dfy`) covers `ConvertFlacToMp3`, the submission loop
  `SubmitAll` and `RunBatch` (`main`). They are module-level methods that take
  the `FileSystem` and update it in place, each proved equal to the functions
  `RunJob` and `RunJobs` over snapshots. The decoder and
  encoder are an oracle `codec: (source, destination) -> bool`.
- `Rerun` (`rerun.dfy`) covers running the converter a second time over the
  same roots. Each job of the first run has nothing left to do, so running
  its jobs again changes nothing; for the whole program this is proved with
  the roots apart and with one root for both.

Four points where the code behaves differently from what one might expect:

- The glob also matches directories whose name ends in `.flac`. Such a
  directory becomes a job: its mkdir runs, and then loading the source fails,
  because opening a directory for reading raises. The oracle `codec` is
  therefore false whenever its source is a directory, and such a job ends
  failed at the transcode step.
- pathlib's stem (CPython 3.13 and earlier) keeps the name `.flac` whole, so
  that file becomes `.flac.mp3`. A file `.flac.flac` in the same directory gets
  the same output path. Outside this one pair, distinct sources get distinct
  outputs under that stem rule, and the output path is
  the source's relative path with `.flac` replaced by `.mp3`
  (`OutputPathsCollide`, `OutputRoundTrip`).
- Jobs are not fully independent, because they share the output tree. Take the
  input files `x.flac` and `x.mp3/y.flac`. The first job writes the file
  `out/x.mp3`, and the second job needs a directory at that same path. The
  outcome of each job then depends on the run order
  (`SharedOutputTreeCouplesJobs`). When no job's output path is an ancestor of
  (or equal to) a job's directory, every job ends exactly as it would alone
  (`FaultIsolation`), whatever the others do and in any order.
- Running the converter twice is idempotent on the tree
  (`RerunChangesNothing`). It is proved for the whole program when neither
  root lies inside the other (`RerunBatchChangesNothing`), and when input and
  output are the same root (`SameRootRerunChangesNothing`): there every job's
  directory already exists and every file written is named `*.mp3`. With
  other nested roots it can fail. Take output `in/out` and a source
  `in/a.flac/t.flac`: the first run makes the directory `in/out/a.flac`, and
  the second glob selects it.
- `main` only returns on its error paths. It sets no exit status, and the
  discovery order is whatever the traversal yields, not a sorted order.

## Model

| member | source | states |
|---|---|---|
| `Paths.RelativeTo` | flake.py:106 | the relative path is what follows the root: `root + r == p`, defined only when the root is a prefix |
| `Paths.Parent` | flake.py:107 | the parent followed by the last component gives the path back; the top is its own parent |
| `Paths.FileName` | flake.py:43 | definition of `name`: the last component, "" for the top; `Paths.ParentThenName` states its relation to `parent` |
| `Paths.ParentThenName` | flake.py:107 | a non-empty path is its parent followed by its name |
| `Paths.LastDot` | flake.py:41 | the index found holds a dot and no later character is a dot, or -1 when there is none |
| `Paths.Stem` | flake.py:41 | the stem is a prefix of the name; `Paths.StemCases` states when it is the whole name and what is cut otherwise |
| `Paths.StemCases` | flake.py:41 | the name is kept whole exactly when it ends in a dot or has no dot after its first character; otherwise the stem is non-empty and the cut starts at the name's last dot, which is not its final character |
| `Paths.StemRemovesLastSuffix` | flake.py:41 | `stem` of `base.ext` (non-empty base, dot-free extension) is `base`: only the last suffix is removed, inner dots stay |
| `Paths.StemOfDotName` | flake.py:41 | a name whose only dot is its first character has no suffix, so its stem is the whole name |
| `Fs.Mkdir` | flake.py:38 | mkdir only adds directories; each added one is a non-empty prefix of the target, was not refused and was not a file |
| `Fs.MkdirSucceedsIff` | flake.py:38 | mkdir succeeds exactly when every prefix of the target is already a directory or is free and creatable |
| `Fs.MkdirMakesAncestors` | flake.py:38 | after a successful mkdir the target and all its ancestors are directories |
| `Fs.MkdirKeepsWellFormed` | flake.py:38 | mkdir, whether it succeeds or fails, keeps the tree well formed (no path both file and directory, every parent a directory) |
| `Fs.MkdirIdempotent` | flake.py:38 | mkdir on an existing directory succeeds and changes nothing; a second call after a success is a no-op |
| `Fs.MkdirAgain` | flake.py:38 | a second mkdir on the tree the first left, whether the first succeeded or failed, gives the same answer and creates nothing |
| `Fs.MkdirSettledGrows` | flake.py:38 | a mkdir with nothing left to create keeps its answer and still creates nothing while files and allowed directories are added |
| `Fs.FileSystem.MkdirParents` | flake.py:38 | the in-place mkdir: its result and new directory set are those of `Mkdir` on the old tree, files are untouched, the tree stays well formed |
| `Fs.FileSystem.WriteFile` | flake.py:49-53 | writing the output succeeds exactly when the path is not a directory and its parent is one; only then is it added to the files |
| `Planner.IsFlacName` | flake.py:94 | the name matches the pattern `*.flac`: it is some string, possibly empty or starting with a dot, followed by `.flac` |
| `Planner.OutputName` | flake.py:41 | definition of `stem + ".mp3"`; `Planner.OutputNameOfFlac` and `Planner.OutputNameCollision` state what it gives for matching names |
| `Planner.OutputNameOfFlac` | flake.py:41 | a matching name other than `.flac` gets its `.flac` replaced by `.mp3` (`a.b.flac` becomes `a.b.mp3`); `.flac` becomes `.flac.mp3` |
| `Planner.OutputNameCollision` | flake.py:41 | two matching names share an output name exactly when they are equal or are `.flac` and `.flac.flac` |
| `Planner.OutputPath` | flake.py:41 | the output path lies one level below the job's directory; `Planner.OutputRoundTrip` and `Planner.OutputPathsCollide` state where it falls and when two coincide |
| `Planner.PlanJob` | flake.py:105-107 | the job's directory lies under the output root, and its path there followed by the file's name is the file's path under the input root |
| `Planner.OutputRoundTrip` | flake.py:106-107 | under the output root the output path is the source's relative path with `.flac` replaced by `.mp3`, and the source's relative path is recovered from it |
| `Planner.OutputPathsCollide` | flake.py:41 | two selected files share an output path exactly when they are the same file or are `.flac` and `.flac.flac` in one directory |
| `Planner.Matches` | flake.py:94 | definition of what the glob may yield: only existing entries (directories or files), each strictly below the input root with a name matching `*.flac`; `Planner.Glob` lists them |
| `Planner.Glob` | flake.py:94 | the list holds every entry strictly below the input root whose name matches `*.flac`, and nothing else, each exactly once |
| `Planner.Plan` | flake.py:104-108 | one job per discovered file, in the list's order, each the planned job for that file |
| `Flake.RunJob` | flake.py:36-58 | a job keeps the tree well formed; the directories afterwards are exactly those its mkdir leaves, even when a later step fails; it fails at the directory step exactly when mkdir fails; it converts exactly when mkdir succeeds, the codec accepts the file and the output path is not a directory; it then writes exactly its output path and its directory and all ancestors exist; otherwise no file is added |
| `Flake.RunJobs` | flake.py:103-108 | exactly one result per job, in job order, carrying that job; the tree stays well formed and only grows |
| `Flake.NewFilesAreConvertedOutputs` | flake.py:49-58 | after a batch the files added are exactly the outputs of the converted jobs; a failed job leaves no file |
| `Flake.ConvertFlacToMp3` | flake.py:28-58 | the in-place job: its result and the new tree are those of `RunJob` on the old tree |
| `Flake.SubmitAll` | flake.py:103-108 | the loop leaves the results and tree that `RunJobs` gives for the planned jobs of the discovered list |
| `Flake.RunBatch` | flake.py:85-110 | the run stops before discovery, changing nothing, exactly when the input root is not a directory; it stops after discovery, changing nothing, exactly when nothing matches; otherwise it runs one job per matching entry (no duplicates, no drops) as `RunJobs` does |
| `Flake.FaultIsolation` | flake.py:36-58 | when no output path is an ancestor of (or equal to) any job's directory, each job's result in the batch equals its result run alone on the original tree |
| `Flake.BatchOutcomes` | flake.py:36-58 | without conflicts each job in the batch converts exactly when its own mkdir succeeds on the original tree, the codec accepts it and its output path is not a directory there, and fails at the directory step exactly when that mkdir fails: one bad file fails alone |
| `Rerun.RunJobSettles` | flake.py:36-58 | after a job has run, running it again on that tree creates no directory, and if it would convert, its output file is already there |
| `Rerun.BatchFootprint` | flake.py:103-108 | whatever the outcomes, a batch adds only unrefused directories on the way to its jobs' directories and only its jobs' output files |
| `Rerun.RerunChangesNothing` | flake.py:38-53 | running again any of a batch's jobs, in any order and with repeats, on the tree the batch left changes nothing (mkdir with `exist_ok`, outputs overwritten in place) |
| `Rerun.RediscoveryUnchanged` | flake.py:94 | with input and output roots apart, the glob after a batch matches exactly what it matched before |
| `Rerun.RerunBatchChangesNothing` | flake.py:85-110 | with the roots apart, a second full run lists only files of the first list, in any order, and leaves the tree as the first run left it |
| `Rerun.OutputNameNotFlac` | flake.py:41 | no output name `stem + ".mp3"` matches `*.flac`, whatever the source name |
| `Rerun.SameRootRediscovery` | flake.py:94 | with one root for input and output, the glob after a batch matches exactly what it matched before |
| `Rerun.SameRootRerunChangesNothing` | flake.py:85-110 | with one root for input and output, a second full run lists only files of the first list, in any order, and leaves the tree as the first run left it |
| `Flake.SharedOutputTreeCouplesJobs` | flake.py:103-108 | without that condition a job's outcome depends on the others and on the order: `x.flac` and `x.mp3/y.flac` interfere |

## Left out

- Decoding and encoding with pydub and ffmpeg, including the `-q:a 0` quality setting. These are a foreign library over an external binary, so they are the oracle `codec`.
- `Paths.Stem`: follows CPython 3.13 and earlier. Python 3.14 also counts a trailing single dot as a suffix and keeps a name whole when the part before its last dot is only dots, so there `..flac` becomes `..flac.mp3` and collides with `..flac.flac`; that rule, and the extra collisions it brings, are not modelled.
- `Flake.RunJob`: when a transcode fails, the model adds no output file. A partly written MP3 left behind by a failed export is not modelled.
- The thread pool and `--threads`. Jobs run one after another in submission order. `FaultIsolation` states what running the jobs one after another in any order cannot change, and `SharedOutputTreeCouplesJobs` shows where order matters.
- Interleaving of the steps of different jobs, as parallel workers can do (one job's mkdir falling between another job's mkdir and its write), is not modelled: each job runs from its mkdir to its write without another job's step in between.
- Logging setup and format, and the "Converting", "Found N files" and "Conversion complete" info lines. The error and warning logged on the early returns are the `Status` values. A job's final success or error line is its `Outcome`.
- Argument parsing and the `os.cpu_count()` default. `RunBatch` starts from the parsed input and output paths.
- `resource_path`, which the pipeline does not use, and all of `build.py`, which only packages the program.
- The filesystem traversal itself. The tree is a finite set of paths with no symbolic links and no case folding, and `Glob` enumerates it in an unspecified order.
- The difference between `ENOENT` and `ENOTDIR` inside pathlib's mkdir. Both end in the same failure with the same directories created.
- Paths containing `.` or `..` components, and any difference between absolute and relative paths.
- `Rerun.RerunBatchChangesNothing`: whole-program idempotence is proved only when neither root lies inside the other, or (`Rerun.SameRootRerunChangesNothing`) when both are one root. With other nested roots the first run can create directories below the input root whose names match `*.flac`, and the second run then has more jobs.
- Process exit codes. The code only returns on its error paths.
