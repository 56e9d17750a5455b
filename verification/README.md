# Directory scanner of `go doc`, modelled in Dafny

`go doc` has to find the package directory a user names. To do that, it
enumerates every directory under `$GOROOT/src` and under each `$GOPATH`
root's `src` that holds Go source files. The scanner in `src/cmd/doc/dirs.go`
does this lazily:

- A background goroutine walks the trees breadth-first and sends each
  candidate directory on an unbuffered channel.
- The `Dirs` value keeps every path it has received in an append-only cache
  (`paths`) and a cursor (`offset`).
- `Next` serves from the cache when it can and otherwise receives one more
  path. `Reset` rewinds the cursor, so a later pass replays the cache without
  walking the filesystem again.

The model has three parts:

- `tree.dfy`, module `Tree`: the filesystem as a finite tree of entries.
  `Dir(name, readable, entries)` is an entry whose IsDir bit is set, and
  `readable == false` stands for `os.Open` or `Readdir` failing. `NonDir(name)`
  is every other kind of entry. The module also holds the `.go` suffix and
  dot-prefix tests, and path joining as `parent + "/" + name`.
- `walk.dfy`, module `Walk`: the level-synchronous breadth-first walk. Pure
  functions (`Subdirs`, `LevelOutput`, `LevelNext`, `Levels`, `WalkRoot`,
  `WalkAll`) give the reference definition. The methods `ScanEntries`,
  `ExamineLevel`, `BfsWalkRoot` and `WalkTrees` follow the loops of
  `bfsWalkRoot` and `walk`, and are proved to compute that definition. The
  lemmas characterise what is emitted and in which order.
- `scanner.dfy`, module `Scanner`: the `Dirs` state machine. The goroutine
  and channel become a `Channel`, which is the fixed sequence the walk sends
  plus a count of values received so far. `Next` and `Reset` are functions on
  the state, and the lemmas prove the cache/cursor invariant and replay. The
  process-wide scanner (`Startup`) is connected to the walk: its channel
  carries `Walk.Produced(goroot, gopath)`, which is the walk of GOROOT
  followed by the walk of each GOPATH root.
- `scenarios.dfy`, module `Scenarios`: one concrete tree and the exact
  sequence the walk emits for it.

Three details of the Go code decide what the model does:

- A directory becomes a candidate when any entry that is not a directory has a
  name ending in `.go`. The code tests `!entry.IsDir()`, so symbolic links,
  devices and sockets with such a name count as well as regular files. Because
  `Readdir` does not follow links, a symbolic link to a directory is a
  `NonDir` entry and is not descended into.
- The cursor never exceeds the cache length. The code increments `offset`
  only while it is below `len(paths)` or right after an append, so
  `offset <= len(paths)` always holds.
- The comment on `bfsWalkRoot` says "lexical order", but the code never sorts.
  Siblings keep the order in which `Readdir` returned them, and the model keeps
  the order of `entries`.

## Model

| member | source | states |
|---|---|---|
| Walk.ScanEntries | src/cmd/doc/dirs.go:89-107 | One pass over a directory's entries sets the flag exactly when some non-directory entry's name ends in ".go". It collects, in entry order, exactly the subdirectories the reference `Subdirs` enqueues. |
| Walk.SubdirsMembers | src/cmd/doc/dirs.go:94-106 | A queue entry is enqueued for the next level iff it comes from a directory entry whose name does not start with "." (non-directories and dot-directories are never enqueued). |
| Walk.SubdirsKeepEntryOrder | src/cmd/doc/dirs.go:90-107 | Siblings are enqueued in the order of the parent's entries, with no sort. The subdirectories from a prefix of the entries precede those from the rest. |
| Walk.ExamineLevel | src/cmd/doc/dirs.go:77-112 | One pass over the current queue emits exactly the candidate directories of that level, in queue order. It builds exactly the next-level queue; unreadable directories contribute to neither. |
| Walk.LevelOutputMembers | src/cmd/doc/dirs.go:108-111 | A directory of the current level is emitted iff it was read successfully and holds a ".go" non-directory entry. |
| Walk.LevelNextMembers | src/cmd/doc/dirs.go:78-88 | The next level holds exactly the children of the current level's readable directories; a directory that fails to open or read enqueues nothing. |
| Walk.LevelNextSize | src/cmd/doc/dirs.go:75-76 | Each level removes at least one entry per examined directory from the trees still queued, so the `for len(next) > 0` loop terminates on a finite tree. |
| Walk.BfsWalkRoot | src/cmd/doc/dirs.go:67-115 | The two-queue loop over one root, starting from `root/src`, emits exactly the reference breadth-first sequence `WalkRoot`. |
| Walk.LevelsMembers | src/cmd/doc/dirs.go:75-114 | Starting from any queue, a directory is emitted iff it is a candidate and is reachable from some queued directory through readable, non-dot directories. |
| Walk.RootEmitsExactlyCandidates | src/cmd/doc/dirs.go:67-115 | For one root, a path is emitted iff it is the path of a candidate directory reachable from `root/src` without passing through a dot-prefixed or unreadable directory. |
| Walk.LevelsDepthOrdered | src/cmd/doc/dirs.go:70-77 | Level-synchronous order: from a queue at depth d, nothing shallower than d is emitted, and no directory comes after a deeper one. |
| Walk.RootDepthOrdered | src/cmd/doc/dirs.go:65-77 | Within one root, every emitted directory at depth k comes before every emitted directory at depth k + 1. |
| Walk.UnreadableEmitsNothing | src/cmd/doc/dirs.go:78-88 | An unreadable directory in a level changes nothing in that level's emitted sequence. |
| Walk.UnreadableEnqueuesNothing | src/cmd/doc/dirs.go:78-88 | An unreadable directory in a level adds nothing to the next level's queue. |
| Walk.UnreadableSkipped | src/cmd/doc/dirs.go:78-88 | A directory that fails to open or read is neither emitted nor descended into. The walk continues with its siblings and later levels exactly as if it were absent. |
| Walk.DirEntryNotGoFile | src/cmd/doc/dirs.go:94-99 | Adding a directory entry anywhere in a directory's entries does not change whether the directory holds a Go file. Only non-directory entries are checked for the ".go" suffix, whatever the directory's name. |
| Walk.HiddenDirIgnored | src/cmd/doc/dirs.go:100-104 | In the walk that starts at a directory (as the walk of a root starts at its `src`), removing a dot-prefixed subdirectory from that directory's entries leaves the emitted paths unchanged: neither it nor anything beneath it is emitted. |
| Walk.ReachedBelowIsVisible | src/cmd/doc/dirs.go:100-106 | Every directory the walk reaches strictly below its starting directory was enqueued as a subdirectory, so its name does not start with ".". |
| Walk.EmittedBelowRootIsVisible | src/cmd/doc/dirs.go:100-106 | At any depth, every path emitted for a root other than `root/src` itself belongs to a directory whose name does not start with ".", reached from `root/src` through readable, non-dot directories. |
| Walk.WalkAllAppend | src/cmd/doc/dirs.go:57-63 | Roots are walked strictly one after another: the output for a list of roots is the output of its first part followed by the output of the rest. |
| Walk.WalkTrees | src/cmd/doc/dirs.go:57-63 | The producer sends the walk of GOROOT, then the walk of each GOPATH root in list order, and nothing after that. |
| Scanner.Receive | src/cmd/doc/dirs.go:47-50 | A receive takes the walk's values in the order sent, each exactly once; once the walk is over it yields `("", false)` and leaves the channel as it was. |
| Scanner.Init | src/cmd/doc/dirs.go:28-32 | At start-up the cache is empty, the cursor is zero, nothing has been received and the channel carries the given walk output, which satisfies the state invariant. |
| Scanner.Startup | src/cmd/doc/dirs.go:26-32 | The process-wide scanner's channel carries exactly the producer's output for GOROOT and the GOPATH roots, and the scanner starts in a valid state. |
| Scanner.Reset | src/cmd/doc/dirs.go:34-37 | Reset sets the cursor to zero, leaves the cache and channel unchanged, and preserves the invariant. |
| Scanner.Next | src/cmd/doc/dirs.go:39-54 | A cache hit returns `(paths[offset], true)`, advances the cursor and does not touch the channel. The cache only grows, by the received value. In a valid state the call returns the walk's output at the cursor, or `("", false)` at end-of-stream while changing nothing, and preserves the invariant. |
| Scanner.NextsFollowRun | src/cmd/doc/dirs.go:41-54 | From a valid state, `k` successive `Next` calls return exactly the walk's output from the cursor on, padded with `("", false)`, and end in a valid state with the same channel contents. |
| Scanner.NextsFollowCursor | src/cmd/doc/dirs.go:41-54 | From a valid state, successive `Next` calls return the walk's output from the cursor onward and then `("", false)`, and every state passed through is valid. |
| Scanner.RunKeepsValid | src/cmd/doc/dirs.go:20-24 | Any interleaving of `Reset` and `Next` preserves the invariant: the cache is a prefix of the producer's output, and the cursor stays within the cache. |
| Scanner.Replay | src/cmd/doc/dirs.go:16-19 | After any history of calls, the i-th `Next` after a `Reset` returns the i-th produced directory (or the end), so every pass replays the same sequence. |
| Scanner.StartupReplaysWalk | src/cmd/doc/dirs.go:16-32 | For the process-wide scanner, every pass delivers the breadth-first walk of GOROOT followed by that of each GOPATH root. |
| Scanner.ExhaustedIsStable | src/cmd/doc/dirs.go:47-50 | Past end-of-stream, any number of `Next` calls return `("", false)` and leave the state exactly as it was. |
| Scanner.CachedPassesReadNothing | src/cmd/doc/dirs.go:16-19 | Once the whole walk has been received, no later `Reset`/`Next` call takes a value from the channel or changes the cache, so later passes do no walking. |
| Scenarios.BreadthFirstScenario | src/cmd/doc/dirs.go:65-77 | For `/r1/src` with `a/x.go`, `a/deep/y.go` and `b/z.go`, the walk emits `/r1/src/a`, `/r1/src/b`, `/r1/src/a/deep`, in that order. |

## Left out

- The goroutine, the unbuffered channel's rendezvous and `close`: the walk's
  output is a fixed sequence received one value at a time. Only the order of
  values is observable by the single consumer.
- The channel also stands for laziness. The model does not say that the walk
  runs ahead of the consumer by at most one value, because this does not
  affect any returned value.
- `os.Open`, `Readdir`, `fd.Close` and `log.Print`: the filesystem is a
  finite immutable tree, and an open or read failure is `readable == false`.
  Logging has no effect on the output. Changes to the filesystem during the
  walk are not modelled.
- `build.Default.GOROOT` and `splitGopath` (the latter is not part of this
  model): the GOROOT root and the GOPATH roots are inputs. Each root comes
  with the entry found at its `src` subdirectory.
- The cleaning done by `path.Join` and `filepath.Join`: paths are joined as
  `parent + "/" + name`.
- Walk.RootEmitsExactlyCandidates: it does not state that a path appears at
  most once in a pass. Uniqueness relies on the filesystem giving distinct
  names within a directory and on path cleaning, and neither is in the
  abstract tree.
- The initial cache capacity of 1000 and the reuse of the queue's backing
  array (`this[0:0]`): these are allocation details with no effect on
  behaviour.
- Concurrent use of `Next`/`Reset` by several consumers: the code does not
  support it.
