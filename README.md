# cassandra-migrations, modelled in Dafny

A model of the two parts of the service that carry real contracts:

- the templating package `interpolate`: `Walk` lists the non-directories a directory walk
  visits, `Replace` rewrites every `${key}` placeholder in a `.cql` file in place, and
  `Interpolate` drives a caller-supplied `convert` callback over the listing, stopping at
  the first failure;
- the HTTP handlers of `main.go`: the liveness probe, and the run endpoint that resolves
  the configured command, runs it while the service's mutex is held (between `Lock` and
  `Unlock`), and writes the combined output into a JSON-looking body.

Files: `outcomes.dfy` (options, errors, and how a Go call ends: `Ok` for a nil error,
`Err` for a returned error, `Abort` for a panic), `strings.dfy` (replace-all as Go's
`strings.Replace(s, tok, rep, -1)` does it), `filepath.dfy` (`filepath.Match` for the
pattern used, and the base name `os.Stat` reports), `interpolate.dfy` (the templating
package), `migration.dfy` (the service).

The filesystem is a map from path to `File(content)` or `Dir`, held by the class
`FileSystem` whose `Replace` and `Interpolate` update it in place. `filepath.Walk`'s
traversal is given as the sequence of visits it makes (a path, and the error the walk
reports with it, if any). The `convert` callback is a function from the filesystem and its
arguments to a new filesystem and an outcome, so a callback can change files. `Replace`
itself does not have the type `convert` (it takes a path, a key and a value), so
`ReplaceConvert` adapts it: it passes the callback's first argument to `Replace` as the
path and drops the file info. The service is a class with `command`, `args` and the mutex
as a `held` flag; a ghost `history` records every lock, every run of the command and every
unlock, and its invariant only admits a run while the gate is held. Command lookup and
process execution are functions passed to the handler.

The model keeps these behaviours of the code as written:

- `Replace` matches `*.cql` against the whole path, not the base name, so `*` cannot cross
  a `/` and no file below a directory is ever rewritten (`NestedPathNeverRewritten`).
- `Interpolate` passes the walked directory, not the file, to its callback
  (interpolate/interpolate.go:75). With `Replace` adapted into the callback by
  `ReplaceConvert`, nothing is rewritten (`InterpolateWithReplaceIsNoop`).
- A failing step does not undo the callbacks before it: each call sees the filesystem the
  previous call left, and the loop ends with it (`DriveThreadsFilesystem`).
- The run endpoint embeds the output without any JSON escaping.
- `Walk`, `Replace` and `ExecuteHandler` panic on failure instead of returning an error;
  panics are the `Abort` outcome. `Interpolate` returns the `os.Stat` error and the
  callback's error (`Err`), and passes on a panic of `Walk` or of the callback.

## Model

| member | source | states |
|---|---|---|
| `Strings.ReplaceAll` | interpolate/interpolate.go:52 | the rewrite of line 52, one left-to-right pass replacing each leftmost non-overlapping occurrence; the result is no shorter than the content when the replacement is no shorter than the token, and no longer when it is no longer |
| `Strings.Count` | interpolate/interpolate.go:52 | the number of occurrences the rewrite replaces, which is at most the content's length |
| `Strings.ReplaceByIndex` | interpolate/interpolate.go:52 | the rewrite as Go's loop over `strings.Index` computes it; content without the token is returned as it is |
| `Strings.IndexOf` | interpolate/interpolate.go:52 | the first index where the token occurs, and -1 exactly when it occurs nowhere |
| `Strings.CopyUntil` | interpolate/interpolate.go:52 | text before the first occurrence is copied to the result unchanged |
| `Strings.ReplaceAllIsIndexLoop` | interpolate/interpolate.go:52 | the one-pass scan gives the same string as Go's replace loop: find the next occurrence, copy what precedes it, emit the replacement, resume after the occurrence |
| `Strings.AbsentTokenUnchanged` | interpolate/interpolate.go:52-54 | content without the token is written back unchanged |
| `Strings.CountZeroIffAbsent` | interpolate/interpolate.go:52 | the scan replaces nothing exactly when the token does not occur |
| `Strings.ReplaceAllLength` | interpolate/interpolate.go:52 | the result's length is the content's length plus k times the difference between replacement and token lengths, k being the number of occurrences replaced |
| `Strings.ReplaceBySelf` | interpolate/interpolate.go:52 | replacing the token by itself leaves any content unchanged |
| `Strings.AdjacentOccurrences` | interpolate/interpolate.go:52 | `${x}${x}` with x -> y becomes `yy`: every occurrence is replaced |
| `Strings.SinglePass` | interpolate/interpolate.go:52 | a placeholder formed only after a replacement is not replaced: the scan never revisits output |
| `Strings.PlaceholderExample` | interpolate/interpolate.go:52 | `temp ${file}` with file -> new becomes `temp new` |
| `FilePath.Match` | interpolate/interpolate.go:40 | glob matching of the whole path: neither `*` nor `?` matches a `/`, so a path matched by a pattern without `/` has no `/` |
| `FilePath.BaseName` | interpolate/interpolate.go:71 | the name `os.Stat` reports: trailing `/` are removed (a path of only `/` has the name `/`), and the name is the longest `/`-free suffix of what remains, so it starts right after the last `/` or at the start |
| `FilePath.BaseNameOfChild` | interpolate/interpolate.go:71 | a path the walk builds as a directory, `/` and a non-empty `/`-free name has that name as its base name |
| `FilePath.LiteralMatch` | interpolate/interpolate.go:40 | a pattern without wildcards matches exactly itself |
| `FilePath.CqlPattern` | interpolate/interpolate.go:40 | `*.cql` matches a path exactly when it has no `/` and ends in `.cql` |
| `Interpolate.ListedFiles` | interpolate/interpolate.go:15-20 | every listed path exists and is not a directory, and there are no more of them than visits |
| `Interpolate.ListedFilesMembership` | interpolate/interpolate.go:16-17 | a path is listed if and only if the walk visits it and it stats as a non-directory |
| `Interpolate.ListedFilesConcat` | interpolate/interpolate.go:15-17 | listing keeps the walk's order: it distributes over concatenation of walks |
| `Interpolate.FirstError` | interpolate/interpolate.go:15-20 | the error that stops the walk, when there is one, is the error of some visit |
| `Interpolate.FirstErrorIsEarliest` | interpolate/interpolate.go:15-24 | the walk fails exactly when some visit carries an error, and then with the error of the earliest such visit |
| `Interpolate.WalkOneFile` | interpolate/interpolate_test.go:11-39 | a directory holding one file is listed as the one path `dir + "/tempfile"` with no error |
| `Interpolate.FileSystem.Walk` | interpolate/interpolate.go:12-27 | with no walk error, returns the listing of the visits; with one, panics with the first walk error |
| `Interpolate.Token` | interpolate/interpolate.go:52 | the placeholder is `${`, then exactly the key, then `}` |
| `Interpolate.Info` | interpolate/interpolate.go:71 | the info `os.Stat` gives for a path: its base name, whether it is a directory, and a file's size as its content's length |
| `Interpolate.Rewrite` | interpolate/interpolate.go:29-62 | no path other than the argument changes, no path is added or removed, and nothing changes unless the argument is an eligible file |
| `Interpolate.EligibleIffCqlFile` | interpolate/interpolate.go:36-46 | a path is rewritten only when it names a file (not a directory) and the whole path has no `/` and ends in `.cql` |
| `Interpolate.NestedPathNeverRewritten` | interpolate/interpolate.go:40-46 | a path containing `/` is never rewritten; Replace returns nil for it, or panics if it does not exist |
| `Interpolate.RewriteWithoutToken` | interpolate/interpolate.go:46-61 | an eligible file without the placeholder keeps its content, and Replace returns nil |
| `Interpolate.RewriteExample` | interpolate/interpolate.go:46-57 | the file `a.cql` holding `temp ${file}` is rewritten to `temp new` |
| `Interpolate.FileSystem.Replace` | interpolate/interpolate.go:29-62 | panics on a missing path, does nothing for a directory or a non-matching path, and otherwise overwrites the file with its replace-all rewrite |
| `Interpolate.Drive` | interpolate/interpolate.go:70-80 | the loop takes at most one step per listed file; the first file always gets a step, which starts from the initial filesystem; a stat failure on it ends the loop with that error and the filesystem unchanged, and otherwise the step records the entry stat found |
| `Interpolate.ReplaceConvert` | interpolate/interpolate.go:29-62 | `Replace` adapted to the callback type: it changes at most the path passed as the callback's first argument, adds or removes no path, and returns nil exactly when that path exists (a panic otherwise) |
| `Interpolate.DriveFollowsList` | interpolate/interpolate.go:70-75 | the callback is called on listed files in list order, at most once each, with the walked directory, the info of the entry stat found for that file, the key and the value |
| `Interpolate.DriveThreadsFilesystem` | interpolate/interpolate.go:70-80 | each step stats its file on the filesystem the previous step left (the first on the initial one) and calls the callback on that same filesystem; the loop ends with the filesystem the last step left, so writes of earlier calls are never rolled back |
| `Interpolate.DriveStopsAtFirstFailure` | interpolate/interpolate.go:70-80 | every step before the last succeeded, the loop ends with the last step's outcome (stat failure or callback result), and it returns nil if and only if every listed file was processed successfully |
| `Interpolate.ReplaceOnDirChangesNothing` | interpolate/interpolate.go:64-81 | with Replace adapted by `ReplaceConvert` as the callback and a directory as the walked path, the loop succeeds on every file and changes nothing |
| `Interpolate.InterpolateWithReplaceIsNoop` | interpolate/interpolate.go:64-81 | Interpolate with Replace, adapted by `ReplaceConvert`, over any walk of a directory leaves every file as it was |
| `Interpolate.FileSystem.Interpolate` | interpolate/interpolate.go:64-81 | a walk error panics with nothing changed; otherwise the outcome, final filesystem and steps are those of the loop over the listing |
| `Migration.OutputBody` | main.go:80 | the run body is the 12-character prefix `{"output": "`, the output unescaped, and the suffix `"}` |
| `Migration.OutputBodyInjective` | main.go:80 | different outputs give different bodies |
| `Migration.EchoBody` | main_test.go:41 | the output `test` of `echo -n test` gives the body `{"output": "test"}` |
| `Migration.ResponseWriter.constructor` | main_test.go:31 | a fresh recorder: no status written yet (status reads 200), empty body |
| `Migration.ResponseWriter.WriteHeader` | main.go:58 | the first status written is the one kept; the body is unchanged |
| `Migration.ResponseWriter.WriteString` | main.go:60 | appends to the body and, if no status was written yet, sets 200 |
| `Migration.CassandraMigration.constructor` | main.go:119-122 | a service holds its command and arguments and starts with the gate free |
| `Migration.RunsOnlyWhileHeld` | main.go:69-71 | in any gate history that keeps the mutex's rules, every run of the command happens while the gate is held |
| `Migration.CassandraMigration.Lock` | main.go:69 | takes a free gate and records one acquisition; command and arguments do not change |
| `Migration.CassandraMigration.RunCommand` | main.go:70 | runs the binary with exactly the service's `args`, only while the gate is held, and records the run |
| `Migration.CassandraMigration.Unlock` | main.go:71 | frees a held gate and records one release |
| `Migration.CassandraMigration.HealthCheckHandler` | main.go:57-61 | status 200 and body exactly `{"alive": true}` on a fresh writer; the service, gate included, is untouched |
| `Migration.CassandraMigration.ExecuteHandler` | main.go:63-81 | a failed lookup panics before the gate is taken and writes nothing; otherwise the history gains exactly lock, run of the binary resolved from `command` with exactly `args`, unlock, so the command runs while the gate is held; a run failure panics without writing, and success writes status 200 and `{"output": "` + output + `"}`; the gate is free on every path |
| `Migration.EchoThenMissingCommand` | main_test.go:19-74 | the two handler tests: serving `echo` with arguments `-n test` (a process stub that prints `test` only for exactly those arguments) gives status 200 and body `{"output": "test"}`, and the probe answers 200 with `{"alive": true}`; between them, a run whose command is not found (the panic of main.go:65-67) panics and writes nothing |

## Left out

- Real filesystem effects (`os.Stat`, `ioutil.ReadFile`, `ioutil.WriteFile`, `filepath.Walk` on disk, permissions, symbolic links): the filesystem is a map and the walk a given sequence of visits, so read and write failures of an existing file (interpolate/interpolate.go:47-50, 54-56) cannot occur in the model.
- The panic on a bad pattern (interpolate/interpolate.go:42-44): `filepath.Match` fails only on malformed patterns and `*.cql` is well formed, so that branch is unreachable and not modelled.
- The `if err != nil` after `Walk` (interpolate/interpolate.go:66-68): `Walk` returns a nil error or panics, so the branch is unreachable; `Listing` has no error case.
- FilePath.Match: character classes `[...]` and `\` escapes of `filepath.Match` are not modelled, because the one pattern used has neither.
- Strings.ReplaceAll: requires a non-empty token; Go's behaviour for an empty token is not modelled, because the token `${key}` is never empty.
- File contents and command output are Dafny strings (sequences of characters), not Go byte slices: content that is not valid UTF-8 cannot be represented, and every length, including `FileInfo.size` from `Interpolate.Info`, counts characters rather than bytes.
- FilePath.BaseName: Windows volume names and separators are not modelled; the separator is `/`.
- `exec.LookPath` and `exec.Command(...).CombinedOutput()` (main.go:64, 70) are functions given to the handler, not processes.
- Mutual exclusion between goroutines and the timing of concurrent requests (main_test.go:144-196): only the sequential lock/unlock discipline is modelled, so `Lock` requires a free gate rather than blocking.
- Response headers, including the `Content-Type` set at main.go:59 and 78, route registration (`HandleRequests`), `ListenAndServe` and `main`'s startup (main.go:83-86, 117-130).
- `RepositoryClone`, `GetConfigJson` and `UnmarshalBody` (main.go:88-115): git, network and JSON library wrappers.
- `CheckIfError`, `Info` and `Warning` (main.go:28-46): console output and `os.Exit`.
- Recovery from handler panics by the HTTP server: a panic is the `Abort` outcome of the handler.
- The file `interpolate.go` at the repository root is not part of this model: it is an earlier variant of the package that does not compile.
