/** The image mover: the copy guard (`copy_file`), the per-file pipeline
    (`parse_and_move_file`) and the batch loop of the script's entry point,
    over a file system abstracted as a map from paths to file contents. */
module ImageMover {
  import opened Wrappers
  import opened FigureNames
  import opened Runs

  type Bytes = seq<bv8>

  /** A path as its sequence of components. */
  type Path = seq<string>

  /** The regular files that exist, with their contents. */
  type Files = map<Path, Bytes>

  /** `Path.name`: the last component. */
  function Name(p: Path): (name: string)
    ensures p != [] ==> p == Parent(p) + [name]
  {
    if p == [] then "" else p[|p| - 1]
  }

  /** `Path.parent`: every component but the last. */
  function Parent(p: Path): Path { if p == [] then [] else p[..|p| - 1] }

  /** `directory / name`. */
  function Join(dir: Path, name: string): (p: Path)
    ensures Parent(p) == dir && Name(p) == name
  {
    dir + [name]
  }

  /** The exceptions that processing one file can raise. */
  datatype Error =
    | ValueError(field: string)        // `int` on a field that is not a number
    | SameFileError(path: Path)        // a copy of a file onto itself
    | FileNotFoundError(path: Path)    // a missing source, or a missing destination directory
    | IsADirectoryError(path: Path)    // a source or destination that is a directory

  /** How `copy_file` returned: it left an existing destination alone, or
      it copied. */
  datatype Copy = Kept | Copied

  /** How `parse_and_move_file` returned, with what it logged: the name was
      skipped, the destination already existed, or the file was copied. */
  datatype Moved = NameSkipped | DestinationExists(dst: Path) | CopiedTo(dst: Path)

  /** The exception `shutil.copyfile(src, dst)` raises, if any, checked in
      its order: same file, then opening the source, then opening the
      destination. */
  function CopyError(files: Files, dirs: set<Path>, src: Path, dst: Path): (e: Option<Error>)
    ensures e.None? <==> src != dst && src in files && src !in dirs && Parent(dst) in dirs && dst !in dirs
  {
    if src == dst && (src in files || src in dirs) then Some(SameFileError(src))
    else if src in dirs then Some(IsADirectoryError(src))
    else if src !in files then Some(FileNotFoundError(src))
    else if Parent(dst) !in dirs then Some(FileNotFoundError(dst))
    else if dst in dirs then Some(IsADirectoryError(dst))
    else None
  }

  /** `copy_file(src, dst, checkExists)` on the files `files`: its outcome
      and the files afterwards. */
  function CopyFileSpec(files: Files, dirs: set<Path>, src: Path, dst: Path, checkExists: bool)
    : (r: (Result<Copy, Error>, Files))
    ensures checkExists && dst in files ==> r == (Ok(Kept), files)
    ensures !checkExists || dst !in files ==>
      r.0 == (match CopyError(files, dirs, src, dst) case Some(e) => Err(e) case None => Ok(Copied))
    ensures r.0 == Ok(Copied) ==> src in files && dst !in dirs && r.1 == files[dst := files[src]]
    ensures r.0 != Ok(Copied) ==> r.1 == files
  {
    if checkExists && dst in files then (Ok(Kept), files)
    else match CopyError(files, dirs, src, dst)
      case Some(e) => (Err(e), files)
      case None => (Ok(Copied), files[dst := files[src]])
  }

  /** The guarded copy is idempotent: repeating it changes nothing more,
      because the first call either failed without effect or left the
      destination in place. */
  lemma CopyFileTwice(files: Files, dirs: set<Path>, src: Path, dst: Path)
    ensures var once := CopyFileSpec(files, dirs, src, dst, true);
      CopyFileSpec(once.1, dirs, src, dst, true).1 == once.1
  {
  }

  /** `parse_and_move_file(src, newDir)`: its outcome and the files
      afterwards. */
  function MoveSpec(files: Files, dirs: set<Path>, src: Path, newDir: Path): (r: (Result<Moved, Error>, Files))
    ensures r.0 == Ok(NameSkipped) <==> ParseFilename(Name(src)).Skip?
    ensures ParseFilename(Name(src)).Malformed? ==>
      r == (Err(ValueError(ParseFilename(Name(src)).field)), files)
    ensures r.0.Ok? && !r.0.value.NameSkipped? ==>
      ParseFilename(Name(src)).Parsed? &&
      r.0.value.dst == Join(newDir, Build(ParseFilename(Name(src)).key))
    ensures r.0.Ok? && r.0.value.DestinationExists? <==>
      ParseFilename(Name(src)).Parsed? && Join(newDir, Build(ParseFilename(Name(src)).key)) in files
    ensures (ParseFilename(Name(src)).Parsed? &&
             Join(newDir, Build(ParseFilename(Name(src)).key)) !in files) ==>
      var dst := Join(newDir, Build(ParseFilename(Name(src)).key));
      r.0 == (match CopyError(files, dirs, src, dst) case Some(e) => Err(e) case None => Ok(CopiedTo(dst)))
    ensures r.0.Ok? && r.0.value.CopiedTo? ==>
      src in files && r.0.value.dst !in files && r.1 == files[r.0.value.dst := files[src]]
    ensures !(r.0.Ok? && r.0.value.CopiedTo?) ==> r.1 == files
  {
    match ParseFilename(Name(src))
    case Skip => (Ok(NameSkipped), files)
    case Malformed(field) => (Err(ValueError(field)), files)
    case Parsed(key) =>
      var dst := Join(newDir, Build(key));
      var (c, files') := CopyFileSpec(files, dirs, src, dst, true);
      match c
      case Err(e) => (Err(e), files')
      case Ok(Kept) => (Ok(DestinationExists(dst)), files')
      case Ok(Copied) => (Ok(CopiedTo(dst)), files')
  }

  /** True when a file's processing copied something. */
  predicate IsCopy(outcome: Result<Moved, Error>) { outcome.Ok? && outcome.value.CopiedTo? }

  /** One iteration of the batch loop, as a step over the files. */
  function MoveStep(dirs: set<Path>, newDir: Path): (Files, Path) -> (Result<Moved, Error>, Files)
  {
    (files, src) => MoveSpec(files, dirs, src, newDir)
  }

  /** The batch loop over the discovered files `srcs`, in order: each
      file's outcome (an exception is caught and reported in its place)
      and the files afterwards. */
  function BatchSpec(files: Files, dirs: set<Path>, srcs: seq<Path>, newDir: Path)
    : (r: (seq<Result<Moved, Error>>, Files))
    ensures |r.0| == |srcs|
  {
    Run(MoveStep(dirs, newDir), files, srcs)
  }

  /** One more file: the batch over `srcs` is the batch over all but its
      last file, then that file. */
  lemma BatchStep(files: Files, dirs: set<Path>, srcs: seq<Path>, newDir: Path)
    requires srcs != []
    ensures var before := BatchSpec(files, dirs, srcs[..|srcs| - 1], newDir);
      var last := MoveSpec(before.1, dirs, srcs[|srcs| - 1], newDir);
      BatchSpec(files, dirs, srcs, newDir) == (before.0 + [last.0], last.1)
  {
    RunStep(MoveStep(dirs, newDir), files, srcs);
  }

  /** The loop's step: the batch over the first `i + 1` files is the
      batch over the first `i`, then file `i` processed on what they left. */
  lemma BatchExtend(files: Files, dirs: set<Path>, srcs: seq<Path>, newDir: Path, i: nat,
                    report: seq<Result<Moved, Error>>, mid: Files, outcome: Result<Moved, Error>, after: Files)
    requires i < |srcs|
    requires (report, mid) == BatchSpec(files, dirs, srcs[..i], newDir)
    requires (outcome, after) == MoveSpec(mid, dirs, srcs[i], newDir)
    ensures (report + [outcome], after) == BatchSpec(files, dirs, srcs[..i + 1], newDir)
  {
    RunExtend(MoveStep(dirs, newDir), files, srcs, i, report, mid, outcome, after);
  }

  /** Every discovered file is attempted exactly once and in order: the
      `i`-th outcome is that of processing `srcs[i]` on the files left by
      the first `i`, whatever those outcomes were. */
  lemma BatchAttemptsEach(files: Files, dirs: set<Path>, srcs: seq<Path>, newDir: Path, i: nat)
    requires i < |srcs|
    ensures BatchSpec(files, dirs, srcs, newDir).0[i] ==
      MoveSpec(BatchSpec(files, dirs, srcs[..i], newDir).1, dirs, srcs[i], newDir).0
  {
    RunAt(MoveStep(dirs, newDir), files, srcs, i);
  }

  /** Failure isolation: a file that is skipped or raises changes nothing,
      so the batch ends exactly as if it had not been there, and the files
      after it have the same outcomes. */
  lemma BatchIgnoresFailed(files: Files, dirs: set<Path>, pre: seq<Path>, src: Path, post: seq<Path>, newDir: Path)
    requires !IsCopy(MoveSpec(BatchSpec(files, dirs, pre, newDir).1, dirs, src, newDir).0)
    ensures var whole := BatchSpec(files, dirs, pre + [src] + post, newDir);
      var without := BatchSpec(files, dirs, pre + post, newDir);
      whole.1 == without.1 && whole.0[|pre| + 1..] == without.0[|pre|..]
  {
    RunDropsIdle(MoveStep(dirs, newDir), files, pre, src, post);
  }

  /** The loop never overwrites: every file that existed keeps its
      contents, since each copy is guarded by the existence check. */
  lemma {:induction false} BatchPreservesExisting(files: Files, dirs: set<Path>, srcs: seq<Path>, newDir: Path)
    ensures var after := BatchSpec(files, dirs, srcs, newDir).1;
      forall p :: p in files ==> p in after && after[p] == files[p]
    decreases |srcs|
  {
    if srcs != [] {
      BatchStep(files, dirs, srcs, newDir);
      BatchPreservesExisting(files, dirs, srcs[..|srcs| - 1], newDir);
    }
  }

  /** Every file the loop creates is one of its copies: it sits directly
      in `newDir` (source directories are discarded) under a canonical
      name, and some file's outcome reports copying there. */
  lemma {:induction false} BatchCreatesOnlyCopies(files: Files, dirs: set<Path>, srcs: seq<Path>, newDir: Path)
    ensures var r := BatchSpec(files, dirs, srcs, newDir);
      forall p :: p in r.1 && p !in files ==>
        Parent(p) == newDir && ParseFilename(Name(p)).Parsed? &&
        exists i :: 0 <= i < |srcs| && r.0[i] == Ok(CopiedTo(p))
    decreases |srcs|
  {
    if srcs != [] {
      var n := |srcs| - 1;
      var before := BatchSpec(files, dirs, srcs[..n], newDir);
      var r := BatchSpec(files, dirs, srcs, newDir);
      var step := MoveSpec(before.1, dirs, srcs[n], newDir);
      BatchStep(files, dirs, srcs, newDir);
      AppendIndex(before.0, step.0);
      BatchCreatesOnlyCopies(files, dirs, srcs[..n], newDir);
      forall p | p in r.1 && p !in files
        ensures Parent(p) == newDir && ParseFilename(Name(p)).Parsed?
        ensures exists i :: 0 <= i < |srcs| && r.0[i] == Ok(CopiedTo(p))
      {
        if p in before.1 {
          var i :| 0 <= i < n && before.0[i] == Ok(CopiedTo(p));
        } else {
          assert IsCopy(step.0) && p == step.0.value.dst;
          var key := ParseFilename(Name(srcs[n])).key;
          ParseBuildRoundTrip(key);
          assert r.0[n] == Ok(CopiedTo(p));
        }
      }
    }
  }

  /** A file the loop reports as copied holds, at the end, the contents
      its source had before the loop. */
  lemma BatchCopiesContents(files: Files, dirs: set<Path>, srcs: seq<Path>, newDir: Path, i: nat)
    requires i < |srcs| && srcs[i] in files
    requires IsCopy(BatchSpec(files, dirs, srcs, newDir).0[i])
    ensures var r := BatchSpec(files, dirs, srcs, newDir);
      r.0[i].value.dst in r.1 && r.1[r.0[i].value.dst] == files[srcs[i]]
  {
    var r := BatchSpec(files, dirs, srcs, newDir);
    var mid := BatchSpec(files, dirs, srcs[..i], newDir).1;
    var step := MoveSpec(mid, dirs, srcs[i], newDir);
    BatchAttemptsEach(files, dirs, srcs, newDir, i);
    BatchPreservesExisting(files, dirs, srcs[..i], newDir);
    var dst := step.0.value.dst;
    assert step.1[dst] == files[srcs[i]];
    var done := srcs[..i + 1];
    assert done[..i] == srcs[..i] && done[i] == srcs[i];
    BatchStep(files, dirs, done, newDir);
    assert BatchSpec(files, dirs, done, newDir).1 == step.1;
    RunSplit(MoveStep(dirs, newDir), files, srcs, i + 1);
    BatchPreservesExisting(step.1, dirs, srcs[i + 1..], newDir);
  }

  /** A batch holding a malformed name before a good one: the bad file is
      reported with its `ValueError`, and the good one is still copied,
      flat into the destination directory under its canonical name. */
  lemma MixedBatchExample(files: Files, dirs: set<Path>, bad: Path, good: Path, newDir: Path)
    requires Name(bad) == "a_b.png" && Name(good) == "12_5.png" && good in files
    requires newDir in dirs && good !in dirs
    requires Join(newDir, "12_05.png") !in files && Join(newDir, "12_05.png") !in dirs
    ensures var dst := Join(newDir, "12_05.png");
      BatchSpec(files, dirs, [bad, good], newDir) ==
        ([Err(ValueError("a")), Ok(CopiedTo(dst))], files[dst := files[good]])
  {
    var dst := Join(newDir, "12_05.png");
    MoveMalformedExample(files, dirs, bad, newDir);
    MoveTwoFieldExample(files, dirs, good, newDir);
    var step := MoveStep(dirs, newDir);
    RunSingle(step, files, bad);
    RunSingle(step, files, good);
    RunAppend(step, files, [bad], [good]);
    Pair(bad, good);
    Pair(Err(ValueError("a")), Ok(CopiedTo(dst)));
  }

  lemma MoveMalformedExample(files: Files, dirs: set<Path>, bad: Path, newDir: Path)
    requires Name(bad) == "a_b.png"
    ensures MoveSpec(files, dirs, bad, newDir) == (Err(ValueError("a")), files)
  {
    MalformedExample();
  }

  lemma MoveTwoFieldExample(files: Files, dirs: set<Path>, good: Path, newDir: Path)
    requires Name(good) == "12_5.png" && good in files
    requires newDir in dirs && good !in dirs
    requires Join(newDir, "12_05.png") !in files && Join(newDir, "12_05.png") !in dirs
    ensures var dst := Join(newDir, "12_05.png");
      MoveSpec(files, dirs, good, newDir) == (Ok(CopiedTo(dst)), files[dst := files[good]])
  {
    var dst := Join(newDir, "12_05.png");
    TwoFieldExample();
    assert dst != good;
    assert CopyFileSpec(files, dirs, good, dst, true) == (Ok(Copied), files[dst := files[good]]);
  }

  /** The file system the script works on: the regular files with their
      contents, and the directories, which it never changes. */
  class FileSystem {
    var files: Files
    const dirs: set<Path>

    ghost predicate Valid()
      reads this
    {
      files.Keys !! dirs
    }

    constructor (files0: Files, dirs0: set<Path>)
      requires files0.Keys !! dirs0
      ensures Valid() && files == files0 && dirs == dirs0
    {
      files := files0;
      dirs := dirs0;
    }

    /** `Path.is_file`. */
    function IsFile(p: Path): (b: bool)
      reads this
      ensures b <==> p in files
    {
      p in files
    }

    /** `shutil.copyfile(src, dst)`: the destination gets the source's
        contents, unless one of the checks of `CopyError` fails. */
    method ShutilCopyFile(src: Path, dst: Path) returns (e: Option<Error>)
      requires Valid()
      modifies this
      ensures Valid()
      ensures e == CopyError(old(files), dirs, src, dst)
      ensures files == if e.None? then old(files)[dst := old(files)[src]] else old(files)
    {
      e := CopyError(files, dirs, src, dst);
      if e.None? {
        files := files[dst := files[src]];
      }
    }

    /** `copy_file`: with `checkExists`, an existing destination is left
        alone; otherwise the source is copied over it. */
    method CopyFile(src: Path, dst: Path, checkExists: bool) returns (r: Result<Copy, Error>)
      requires Valid()
      modifies this
      ensures Valid()
      ensures (r, files) == CopyFileSpec(old(files), dirs, src, dst, checkExists)
    {
      if checkExists && IsFile(dst) {
        return Ok(Kept);
      }
      var e := ShutilCopyFile(src, dst);
      if e.Some? {
        return Err(e.value);
      }
      return Ok(Copied);
    }

    /** `parse_and_move_file`: parse the file's name, build the new name,
        place it directly in `newDir`, and copy unless it exists. The
        initial `is_file`/`is_dir` test only logs, so it is not modelled. */
    method ParseAndMoveFile(src: Path, newDir: Path) returns (r: Result<Moved, Error>)
      requires Valid()
      modifies this
      ensures Valid()
      ensures (r, files) == MoveSpec(old(files), dirs, src, newDir)
    {
      var parts := ParseFilename(Name(src));
      match parts {
        case Skip =>
          return Ok(NameSkipped);
        case Malformed(field) =>
          return Err(ValueError(field));
        case Parsed(key) =>
          var newFile := BuildNewFilename(key.chapter, key.section, key.subsection);
          var dst := Join(newDir, newFile);
          var c := CopyFile(src, dst, true);
          match c {
            case Err(e) => return Err(e);
            case Ok(Kept) => return Ok(DestinationExists(dst));
            case Ok(Copied) => return Ok(CopiedTo(dst));
          }
      }
    }
  }

  /** The entry point's loop: every discovered file is processed in turn,
      and an exception raised for one file is caught, reported in the
      returned outcomes, and the loop moves on. `moveDir` must be an
      existing directory, as the script asserts at startup. */
  method RunBatch(fs: FileSystem, srcs: seq<Path>, moveDir: Path) returns (report: seq<Result<Moved, Error>>)
    requires fs.Valid() && moveDir in fs.dirs
    modifies fs
    ensures fs.Valid()
    ensures (report, fs.files) == BatchSpec(old(fs.files), fs.dirs, srcs, moveDir)
  {
    ghost var start := fs.files;
    report := [];
    for i := 0 to |srcs|
      invariant fs.Valid()
      invariant (report, fs.files) == BatchSpec(start, fs.dirs, srcs[..i], moveDir)
    {
      ghost var before := fs.files;
      var outcome := fs.ParseAndMoveFile(srcs[i], moveDir);
      BatchExtend(start, fs.dirs, srcs, moveDir, i, report, before, outcome, fs.files);
      report := report + [outcome];
    }
    assert srcs[..|srcs|] == srcs;
  }
}
