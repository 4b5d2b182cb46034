/** The templating package: list the files under a directory, rewrite `${key}`
    placeholders in `.cql` files, and drive a per-file callback over the listing.
    The filesystem is an abstract map from path to entry; `filepath.Walk`'s
    traversal is given as the sequence of visits it makes. */
module Interpolate {
  import opened Outcomes
  import opened Strings
  import opened FilePath

  type Path = string

  datatype Entry = File(content: string) | Dir

  type Tree = map<Path, Entry>

  /** What `os.Stat` returns for an existing path. */
  datatype FileInfo = FileInfo(name: string, isDir: bool, size: nat)

  function Info(p: Path, e: Entry): (r: FileInfo)
    ensures r.isDir <==> e.Dir?
    ensures e.File? ==> r.size == |e.content|
    ensures r.name == BaseName(p)
  {
    FileInfo(BaseName(p), e.Dir?, if e.File? then |e.content| else 0)
  }

  /** `os.Stat(p)` succeeds and does not report a directory. */
  predicate IsListed(fs: Tree, p: Path)
  {
    p in fs && !fs[p].Dir?
  }

  /** One call `filepath.Walk` makes to its walk function: the path visited and the
      error the walk passes along with it (a path it could not read), if any. */
  datatype Visit = Visit(path: Path, err: Option<Error>)

  /** What `Walk` ends with: the list, or a panic carrying the walk's error. */
  datatype Listing = Listed(files: seq<Path>) | WalkPanic(error: Error)

  /** The first error the walk reports; the walk function returns it and the walk stops. */
  function FirstError(visits: seq<Visit>): (r: Option<Error>)
    ensures r.Some? ==> exists i :: 0 <= i < |visits| && visits[i].err == r
  {
    if visits == [] then None
    else if visits[0].err.Some? then visits[0].err
    else
      var r := FirstError(visits[1..]);
      assert r.Some? ==> exists i :: 0 < i < |visits| && visits[i].err == r by {
        if r.Some? {
          var i :| 0 <= i < |visits[1..]| && visits[1..][i].err == r;
          assert visits[i + 1].err == r;
        }
      }
      r
  }

  /** The visited paths that stat as non-directories, in visit order. */
  function ListedFiles(fs: Tree, visits: seq<Visit>): (r: seq<Path>)
    ensures |r| <= |visits|
    ensures forall i :: 0 <= i < |r| ==> IsListed(fs, r[i])
  {
    if visits == [] then []
    else
      var last := visits[|visits| - 1];
      ListedFiles(fs, visits[..|visits| - 1]) + (if IsListed(fs, last.path) then [last.path] else [])
  }

  /** The eligibility filter of `Replace`, applied to the whole path. */
  const Pattern: string := "*.cql"

  /** The placeholder for `key`. */
  function Token(key: string): (t: string)
    ensures |t| == |key| + 3 && t[..2] == "${" && t[2..|t| - 1] == key && t[|t| - 1] == '}'
  {
    "${" + key + "}"
  }

  /** `fi` names a file (not a directory) whose whole path matches `*.cql`. */
  predicate Eligible(fs: Tree, fi: Path)
  {
    fi in fs && fs[fi].File? && Match(Pattern, fi)
  }

  /** What `Replace(fi, key, value)` returns and the filesystem it leaves. */
  function Rewrite(fs: Tree, fi: Path, key: string, value: string): (res: (Outcome, Tree))
    ensures res.1.Keys == fs.Keys
    ensures forall p :: p in fs && p != fi ==> res.1[p] == fs[p]
    ensures !Eligible(fs, fi) ==> res.1 == fs
  {
    if fi !in fs then (Abort(NotExist(fi)), fs)
    else if fs[fi].Dir? then (Ok, fs)
    else if !Match(Pattern, fi) then (Ok, fs)
    else (Ok, fs[fi := File(ReplaceAll(fs[fi].content, Token(key), value))])
  }

  /** The arguments `Interpolate` passes to its callback: a directory, a file's info,
      the key and the value. */
  datatype Call = Call(dir: Path, info: FileInfo, key: string, value: string)

  /** The callback type `convert`: it may change the filesystem and ends with an outcome. */
  type Convert = (Tree, Call) -> (Tree, Outcome)

  /** One iteration of `Interpolate`'s loop over the listed file `file`, from the filesystem
      `before`: `entry` is what `os.Stat` found there, and the callback left `after`. */
  datatype Step =
    | Called(file: Path, before: Tree, entry: Entry, call: Call, after: Tree, result: Outcome)
    | StatFailed(file: Path, before: Tree)

  function StepOutcome(s: Step): Outcome
  {
    match s
    case Called(_, _, _, _, _, result) => result
    case StatFailed(f, _) => Err(NotExist(f))
  }

  /** The filesystem a step leaves: a failed `os.Stat` changes nothing. */
  function StepAfter(s: Step): Tree
  {
    match s
    case Called(_, _, _, _, after, _) => after
    case StatFailed(_, before) => before
  }

  /** A step did what one iteration of the loop does from its own `before`: stat the file,
      and if it exists call the callback with its info on that very filesystem. */
  predicate StepFollowsCallback(s: Step, dir: Path, key: string, value: string, fn: Convert)
  {
    match s
    case Called(f, before, entry, call, after, result) =>
      f in before && entry == before[f] && call == Call(dir, Info(f, entry), key, value) &&
      (after, result) == fn(before, call)
    case StatFailed(f, before) => f !in before
  }

  /** Where a run of the loop ends: its outcome, the filesystem, and the steps it took. */
  datatype Run = Run(status: Outcome, fs: Tree, trace: seq<Step>)

  function Prefixed(steps: seq<Step>, run: Run): Run
  {
    Run(run.status, run.fs, steps + run.trace)
  }

  /** The loop of `Interpolate` over `files`, from filesystem `fs`. */
  function Drive(fs: Tree, files: seq<Path>, dir: Path, key: string, value: string, fn: Convert): (r: Run)
    ensures |r.trace| <= |files|
    ensures files != [] ==> r.trace != [] && r.trace[0].file == files[0]
    ensures files != [] && files[0] in fs ==> r.trace[0].Called? && r.trace[0].entry == fs[files[0]]
    ensures files != [] ==> r.trace[0].before == fs
    ensures files != [] && files[0] !in fs ==> r == Run(Err(NotExist(files[0])), fs, [StatFailed(files[0], fs)])
    decreases |files|
  {
    if files == [] then Run(Ok, fs, [])
    else if files[0] !in fs then Run(Err(NotExist(files[0])), fs, [StatFailed(files[0], fs)])
    else
      var call := Call(dir, Info(files[0], fs[files[0]]), key, value);
      var (fs', result) := fn(fs, call);
      var step := Called(files[0], fs, fs[files[0]], call, fs', result);
      if result.Ok? then Prefixed([step], Drive(fs', files[1..], dir, key, value, fn))
      else Run(result, fs', [step])
  }

  /** One iteration of the loop, for a listed file that exists. */
  lemma DriveUnfold(fs: Tree, files: seq<Path>, dir: Path, key: string, value: string, fn: Convert)
    requires files != [] && files[0] in fs
    ensures var call := Call(dir, Info(files[0], fs[files[0]]), key, value);
            var step := Called(files[0], fs, fs[files[0]], call, fn(fs, call).0, fn(fs, call).1);
            Drive(fs, files, dir, key, value, fn)
              == if fn(fs, call).1.Ok? then Prefixed([step], Drive(fn(fs, call).0, files[1..], dir, key, value, fn))
                 else Run(fn(fs, call).1, fn(fs, call).0, [step])
  {
  }

  /** An adapter that lets `Replace` serve as the callback: `Replace(fi, old, new)` does
      not have the type `convert`, so the adapter passes the callback's first argument as
      `fi`, drops the file info, and passes the key and value on. */
  function ReplaceConvert(fs: Tree, c: Call): (r: (Tree, Outcome))
    ensures r.0.Keys == fs.Keys
    ensures forall p :: p in fs && p != c.dir ==> r.0[p] == fs[p]
    ensures r.1 == (if c.dir in fs then Ok else Abort(NotExist(c.dir)))
  {
    var (status, fs') := Rewrite(fs, c.dir, c.key, c.value);
    (fs', status)
  }

  /** The listing holds exactly the visited paths that are not directories. */
  lemma {:induction false} ListedFilesMembership(fs: Tree, visits: seq<Visit>, p: Path)
    ensures p in ListedFiles(fs, visits) <==>
      IsListed(fs, p) && exists i :: 0 <= i < |visits| && visits[i].path == p
    decreases |visits|
  {
    if visits != [] {
      var init := visits[..|visits| - 1];
      ListedFilesMembership(fs, init, p);
      if i :| 0 <= i < |visits| && visits[i].path == p {
        if i < |init| {
          assert init[i].path == p;
        }
      }
      if i :| 0 <= i < |init| && init[i].path == p {
        assert visits[i].path == p;
      }
    }
  }

  /** Listing keeps the walk's order: the listing of a concatenated walk is the
      concatenation of the listings. */
  lemma {:induction false} ListedFilesConcat(fs: Tree, a: seq<Visit>, b: seq<Visit>)
    ensures ListedFiles(fs, a + b) == ListedFiles(fs, a) + ListedFiles(fs, b)
    decreases |b|
  {
    if b == [] {
      assert a + b == a;
    } else {
      var init := b[..|b| - 1];
      assert (a + b)[..|a + b| - 1] == a + init;
      assert (a + b)[|a + b| - 1] == b[|b| - 1];
      ListedFilesConcat(fs, a, init);
    }
  }

  /** A directory holding one file lists just that file's path. */
  lemma WalkOneFile(dir: Path)
    ensures var file := dir + "/tempfile";
            var visits := [Visit(dir, None), Visit(file, None)];
            FirstError(visits).None? &&
            ListedFiles(map[dir := Dir, file := File("temp file")], visits) == [file]
  {
    var file := dir + "/tempfile";
    var fs := map[dir := Dir, file := File("temp file")];
    var visits := [Visit(dir, None), Visit(file, None)];
    assert |file| > |dir|;
    assert visits[..1] == [Visit(dir, None)] && visits[..1][..0] == [];
    assert ListedFiles(fs, visits[..1]) == [];
    assert visits[1..] == [Visit(file, None)] && visits[1..][1..] == [];
    assert FirstError(visits[1..]) == FirstError([]) == None;
  }

  /** The walk stops at the earliest visit that carries an error. */
  lemma {:induction false} FirstErrorIsEarliest(visits: seq<Visit>)
    ensures FirstError(visits).None? <==> forall i :: 0 <= i < |visits| ==> visits[i].err.None?
    ensures FirstError(visits).Some? ==>
      exists k :: 0 <= k < |visits| && visits[k].err == FirstError(visits) &&
                  forall i :: 0 <= i < k ==> visits[i].err.None?
    decreases |visits|
  {
    if visits != [] && visits[0].err.None? {
      FirstErrorIsEarliest(visits[1..]);
      assert forall i :: 0 < i < |visits| ==> visits[i] == visits[1..][i - 1];
      if FirstError(visits).Some? {
        var k :| 0 <= k < |visits[1..]| && visits[1..][k].err == FirstError(visits[1..]) &&
                 forall i :: 0 <= i < k ==> visits[1..][i].err.None?;
        assert visits[k + 1].err == FirstError(visits);
      }
    }
  }

  /** `Replace` touches a file exactly when it is a file whose whole path, with no
      separator in it, ends in `.cql`. */
  lemma EligibleIffCqlFile(fs: Tree, fi: Path)
    ensures Eligible(fs, fi) <==> fi in fs && fs[fi].File? && Separator !in fi && HasSuffix(fi, ".cql")
  {
    CqlPattern(fi);
  }

  /** Because the pattern is matched against the whole path, a file below any directory
      is never rewritten. */
  lemma NestedPathNeverRewritten(fs: Tree, fi: Path, key: string, value: string)
    requires Separator in fi
    ensures Rewrite(fs, fi, key, value) == (if fi in fs then Ok else Abort(NotExist(fi)), fs)
  {
    CqlPattern(fi);
  }

  /** An eligible file without the placeholder is left as it is, and `Replace` succeeds
      on every existing path. */
  lemma RewriteWithoutToken(fs: Tree, fi: Path, key: string, value: string)
    requires fi in fs && fs[fi].File? && !Contains(fs[fi].content, Token(key))
    ensures Rewrite(fs, fi, key, value) == (Ok, fs)
  {
    AbsentTokenUnchanged(fs[fi].content, Token(key), value);
    assert fs[fi := File(fs[fi].content)] == fs;
  }

  /** `temp ${file}` with file -> new becomes `temp new`. */
  lemma RewriteExample()
    ensures Rewrite(map["a.cql" := File("temp ${file}")], "a.cql", "file", "new")
         == (Ok, map["a.cql" := File("temp new")])
  {
    var fs := map["a.cql" := File("temp ${file}")];
    var tok := Token("file");
    assert tok == "${file}";
    assert ReplaceAll(fs["a.cql"].content, tok, "new") == "temp new" by {
      PlaceholderExample();
    }
    assert Match(Pattern, "a.cql") by {
      CqlPattern("a.cql");
      assert "a.cql"[5 - 4..] == ".cql";
    }
    assert fs["a.cql" := File("temp new")] == map["a.cql" := File("temp new")];
  }

  /** The loop calls the callback on the listed files in order, passing the walked
      directory (not the file), the file's info, the key and the value. */
  lemma {:induction false} DriveFollowsList(fs: Tree, files: seq<Path>, dir: Path, key: string, value: string, fn: Convert)
    ensures var run := Drive(fs, files, dir, key, value, fn);
      |run.trace| <= |files| &&
      (forall i :: 0 <= i < |run.trace| ==> run.trace[i].file == files[i]) &&
      (forall i :: 0 <= i < |run.trace| && run.trace[i].Called? ==>
         run.trace[i].call.dir == dir && run.trace[i].call.key == key &&
         run.trace[i].call.value == value &&
         run.trace[i].call.info == Info(files[i], run.trace[i].entry))
    decreases |files|
  {
    DriveThreadsFilesystem(fs, files, dir, key, value, fn);
    if files != [] && files[0] in fs {
      var call := Call(dir, Info(files[0], fs[files[0]]), key, value);
      var (fs', result) := fn(fs, call);
      if result.Ok? {
        DriveFollowsList(fs', files[1..], dir, key, value, fn);
        var rest := Drive(fs', files[1..], dir, key, value, fn);
        assert Drive(fs, files, dir, key, value, fn).trace == [Called(files[0], fs, fs[files[0]], call, fs', result)] + rest.trace;
        assert forall i :: 0 < i < |files| ==> files[i] == files[1..][i - 1];
      }
    }
  }

  /** The loop threads the filesystem through its steps: the first step starts from the
      initial filesystem, each later step from the one the previous step left, every step
      is one iteration on its own `before`, and the loop ends with what the last step left.
      Nothing is rolled back when a step fails. */
  lemma {:induction false} DriveThreadsFilesystem(fs: Tree, files: seq<Path>, dir: Path, key: string, value: string, fn: Convert)
    ensures var run := Drive(fs, files, dir, key, value, fn);
      (run.trace == [] ==> run.fs == fs) &&
      (run.trace != [] ==> run.trace[0].before == fs && run.fs == StepAfter(run.trace[|run.trace| - 1])) &&
      (forall i :: 0 <= i < |run.trace| - 1 ==> run.trace[i + 1].before == StepAfter(run.trace[i])) &&
      (forall i :: 0 <= i < |run.trace| ==> StepFollowsCallback(run.trace[i], dir, key, value, fn))
    decreases |files|
  {
    if files != [] && files[0] in fs {
      var call := Call(dir, Info(files[0], fs[files[0]]), key, value);
      var (fs', result) := fn(fs, call);
      var step := Called(files[0], fs, fs[files[0]], call, fs', result);
      if result.Ok? {
        DriveThreadsFilesystem(fs', files[1..], dir, key, value, fn);
        var rest := Drive(fs', files[1..], dir, key, value, fn);
        var run := Drive(fs, files, dir, key, value, fn);
        assert run.trace == [step] + rest.trace && run.fs == rest.fs;
        assert forall i :: 0 < i < |run.trace| ==> run.trace[i] == rest.trace[i - 1];
        assert StepFollowsCallback(step, dir, key, value, fn);
      }
    }
  }

  /** The loop stops at the first failing step and ends with that step's outcome; it
      succeeds exactly when every listed file was passed to a callback that succeeded. */
  lemma {:induction false} DriveStopsAtFirstFailure(fs: Tree, files: seq<Path>, dir: Path, key: string, value: string, fn: Convert)
    ensures var run := Drive(fs, files, dir, key, value, fn);
      (forall i :: 0 <= i < |run.trace| - 1 ==> StepOutcome(run.trace[i]).Ok?) &&
      run.status == (if run.trace == [] then Ok else StepOutcome(run.trace[|run.trace| - 1])) &&
      (run.status.Ok? <==> |run.trace| == |files| &&
                           forall i :: 0 <= i < |run.trace| ==> StepOutcome(run.trace[i]).Ok?)
    decreases |files|
  {
    if files != [] && files[0] in fs {
      var call := Call(dir, Info(files[0], fs[files[0]]), key, value);
      var (fs', result) := fn(fs, call);
      if result.Ok? {
        DriveStopsAtFirstFailure(fs', files[1..], dir, key, value, fn);
        var rest := Drive(fs', files[1..], dir, key, value, fn);
        var trace := Drive(fs, files, dir, key, value, fn).trace;
        assert trace == [Called(files[0], fs, fs[files[0]], call, fs', result)] + rest.trace;
        assert forall i :: 0 < i < |trace| ==> trace[i] == rest.trace[i - 1];
      }
    }
  }

  /** With `Replace` as the callback through `ReplaceConvert`, the loop rewrites nothing:
      each call is given the walked directory, and `Replace` on a directory does nothing. */
  lemma {:induction false} ReplaceOnDirChangesNothing(fs: Tree, files: seq<Path>, dir: Path, key: string, value: string)
    requires dir in fs && fs[dir].Dir?
    requires forall i :: 0 <= i < |files| ==> files[i] in fs
    ensures var run := Drive(fs, files, dir, key, value, ReplaceConvert);
      run.status == Ok && run.fs == fs && |run.trace| == |files|
    decreases |files|
  {
    if files != [] {
      ReplaceOnDirChangesNothing(fs, files[1..], dir, key, value);
    }
  }

  /** `Interpolate` with `Replace` as the callback through `ReplaceConvert`, over a walk
      of a directory, succeeds and leaves every file as it was. */
  lemma InterpolateWithReplaceIsNoop(fs: Tree, visits: seq<Visit>, dir: Path, key: string, value: string)
    requires dir in fs && fs[dir].Dir?
    ensures var run := Drive(fs, ListedFiles(fs, visits), dir, key, value, ReplaceConvert);
      run.status == Ok && run.fs == fs
  {
    ReplaceOnDirChangesNothing(fs, ListedFiles(fs, visits), dir, key, value);
  }

  /** The filesystem, which `Replace` and the callback write to. */
  class FileSystem {
    var entries: Tree

    constructor (entries: Tree)
      ensures this.entries == entries
    {
      this.entries := entries;
    }

    /** Lists the non-directories the walk visits; a walk error is a panic. */
    method Walk(searchDir: Path, visits: seq<Visit>) returns (r: Listing)
      ensures FirstError(visits).None? ==> r == Listed(ListedFiles(entries, visits))
      ensures FirstError(visits).Some? ==> r == WalkPanic(FirstError(visits).value)
    {
      var fileList: seq<Path> := [];
      var i := 0;
      while i < |visits|
        invariant 0 <= i <= |visits|
        invariant fileList == ListedFiles(entries, visits[..i])
        invariant FirstError(visits) == FirstError(visits[i..])
      {
        var v := visits[i];
        assert visits[..i + 1][..i] == visits[..i];
        if v.path in entries && !entries[v.path].Dir? {
          fileList := fileList + [v.path];
        }
        if v.err.Some? {
          return WalkPanic(v.err.value);
        }
        assert visits[i..][1..] == visits[i + 1..];
        i := i + 1;
      }
      assert visits[..i] == visits;
      return Listed(fileList);
    }

    /** Rewrites every `${key}` in `fi` to `value` when `fi` is an eligible file. */
    method Replace(fi: Path, key: string, value: string) returns (r: Outcome)
      modifies this
      ensures (r, entries) == Rewrite(old(entries), fi, key, value)
    {
      if fi !in entries {
        return Abort(NotExist(fi));
      }
      if entries[fi].Dir? {
        return Ok;
      }
      var matched := Match(Pattern, fi);
      if matched {
        var read := entries[fi].content;
        var newContents := ReplaceAll(read, Token(key), value);
        entries := entries[fi := File(newContents)];
      }
      return Ok;
    }

    /** Walks `searchDir` and calls `fn` once per listed file, stopping at the first
        failure. The steps taken are returned in `trace`. */
    method Interpolate(searchDir: Path, visits: seq<Visit>, key: string, value: string, fn: Convert)
      returns (r: Outcome, trace: seq<Step>)
      modifies this
      ensures FirstError(visits).Some? ==>
        r == Abort(FirstError(visits).value) && trace == [] && entries == old(entries)
      ensures FirstError(visits).None? ==>
        Run(r, entries, trace) == Drive(old(entries), ListedFiles(old(entries), visits), searchDir, key, value, fn)
    {
      var listing := Walk(searchDir, visits);
      if listing.WalkPanic? {
        return Abort(listing.error), [];
      }
      var fileList := listing.files;
      trace := [];
      var i := 0;
      while i < |fileList|
        invariant 0 <= i <= |fileList|
        invariant Drive(old(entries), fileList, searchDir, key, value, fn)
               == Prefixed(trace, Drive(entries, fileList[i..], searchDir, key, value, fn))
      {
        var f := fileList[i];
        ghost var before, done := entries, trace;
        assert fileList[i..][0] == f && fileList[i..][1..] == fileList[i + 1..];
        if f !in entries {
          trace := trace + [StatFailed(f, entries)];
          return Err(NotExist(f)), trace;
        }
        var fInfo := Info(f, entries[f]);
        var call := Call(searchDir, fInfo, key, value);
        var (fs', result) := fn(entries, call);
        var step := Called(f, entries, entries[f], call, fs', result);
        DriveUnfold(before, fileList[i..], searchDir, key, value, fn);
        entries := fs';
        trace := trace + [step];
        if !result.Ok? {
          return result, trace;
        }
        ghost var rest := Drive(fs', fileList[i + 1..], searchDir, key, value, fn);
        assert (done + [step]) + rest.trace == done + ([step] + rest.trace);
        i := i + 1;
      }
      assert fileList[i..] == [];
      return Ok, trace;
    }
  }
}
