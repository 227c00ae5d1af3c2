# treego tree walker, modelled in Dafny

treego prints a directory tree, or searches it. The model covers the core of
`main.go` and of its exported copy `treego/main.go`. The two files hold the same
logic. One Dafny member stands for each pair of functions: `buildTreeSafe` and
`BuildTreeSafe`, `closeOnce` and `CloseOnce`, `searchDFS` and `SearchDFS`,
`printTreeDFS` and `PrintTreeDFS`.

- `abort.dfy` (module `Abort`): the process-wide abort signal. This is the
  `abort` channel together with the `sync.Once` that closes it. It is a class
  with two fields, `closed` and `onceDone`. Its methods are closing through the
  guard, the non-blocking `select` poll, and `ResetGlobalState`.
- `fs.dfy` (module `Fs`): the filesystem as a map from path to `File`,
  `Dir(entries)` or `UnreadableDir`. A path that is not a key does not
  exist. The module also holds path joining and the base name that `os.Stat`
  reports. The `FileSystem` class answers `Stat` and `ReadDir` and logs every
  call, so the model can say which calls a build makes.
- `tree.dfy` (module `Tree`): the `Node` record and the pre-order of a tree.
- `build.dfy` (module `Build`): the tree builder, as imperative code against
  the `Signal` and `FileSystem` objects.
  - `BuildTreeSafe` polls the flag, stats, lists, and fills the `childNodes`
    array one goroutine at a time in entry order (`SpawnChildren`,
    `RunChild`).
  - It then compacts the array into the node's children (`CompactSlots`).
  - Each method is proved equal to the reference functions `BuildSpec` and
    `BuildSlots`. These thread the flag through the walk and record the
    filesystem calls.
  - The lemmas state what a build returns: when it is nil, that every node is
    sound, that the result is exact when nothing trips, and which calls are
    made.
- `search.dfy` (module `Search`): the search walk as a method with a loop over
  the children. It is proved equal to a filter over the pre-order of the tree.
- `print.dfy` (module `Print`): the tree printer as a method with the source's
  loop, its `continue`s and the inner `hasMatch` loop. It is proved equal to
  the recursive function `Rows`, which records each line's prefix, branch and
  node. The lemmas state the filtering, the prefixes and the placement of the
  corner connector.
- `walk.dfy` (module `Walk`): the builder and the printer together. Without
  filters, a built tree prints one line for every node below the root.
- `fixture.dfy` and `scenarios.dfy`: the test tree of the repository's tests,
  and the printing and search scenarios the tests check on it.

Standard output is modelled by returning the printed lines as a sequence, in
order. The regular expression is an abstract predicate on names (`Pattern`).

A build is not all-or-nothing. A failing child empties only its own slot of
`childNodes`, and once the flag has tripped the later siblings leave their
slots nil. The listed parent is still returned as a node, now missing those
children (main.go:70-78). `Build.PartialTreeAfterFailure` shows this on a
two-entry directory. A nil result comes only from the path whose own stat or
listing fails, or from a build that starts with the flag already tripped.

The printer's lookahead is one level deep. A directory whose name does not
match the pattern is printed only when one of its immediate children matches
(main.go:105-119). `Scenarios.PrintFile4` shows the consequence on the test
tree: a pattern that matches only a file two levels down prints nothing.

## Model

| member | source | states |
|---|---|---|
| Abort.Signal.constructor | treego/main.go:24 | a new signal: the channel is open and the guard has not run |
| Abort.Signal.Close | main.go:85 | closing the channel requires it to be open (closing twice panics), and it is closed afterwards |
| Abort.Signal.CloseOnce | main.go:82-87 | after one or more calls the channel is closed and the guard has fired; a call on a closed channel changes nothing |
| Abort.Signal.Poll | main.go:29-34 | the poll reports tripped exactly when the channel is closed, and changes nothing |
| Abort.Signal.ResetGlobalState | treego/main.go:134-137 | after a reset the channel is open again and the guard is fresh |
| Fs.FileSystem.Stat | main.go:36-40 | stat fails exactly on a missing path; on success it reports the base name and whether the path is a directory; the call is logged |
| Fs.FileSystem.ReadDir | main.go:47-51 | listing succeeds exactly on a readable directory and returns its entries; the call is logged |
| Fs.TrimSlashesShape | main.go:42 | trimming trailing separators gives a prefix of the path with no trailing separator, unless the whole path is "/" |
| Fs.SegmentIsLastElement | main.go:42 | the last element is a separator-free suffix of the path, preceded by a separator if it is not the whole path |
| Fs.BaseNameOfJoin | main.go:65-66 | a child built at `Join(path, name)` gets the entry's own name from stat |
| Fs.JoinOfDot | main.go:65 | joining under the root "." gives the bare entry name, as `filepath.Join` does |
| Fs.ChildShrinks | main.go:65-66 | the disk paths ranked at or above a joined child are fewer than those at or above its directory, so the recursion ends |
| Build.BuildTreeSafe | main.go:28-79 | the returned node, the flag afterwards and the filesystem calls made (appended to the log) are those of the reference walk `BuildSpec` |
| Build.SpawnChildren | main.go:53-70 | after the loop, `childNodes`, the flag and the call log are those of running the entries' goroutines in index order |
| Build.RunChild | main.go:58-67 | one goroutine: with the flag tripped it leaves its slot nil and makes no call, otherwise it builds the joined child path |
| Build.CompactSlots | main.go:72-76 | the children are the non-nil slots of `childNodes`, in slot order |
| Build.RebuildAfterReset | treego/main.go:134-137 | after a failed build and a reset, a new build runs with the flag open: it gives the exact image of a healthy subtree |
| Build.BuildShape | main.go:29-45 | with the flag tripped on entry: nil and no filesystem call; a nil result comes with a tripped flag; a node has the given path, the stat name and the stat kind; a non-directory is a leaf with a single stat; the first call is a stat of the path |
| Build.BuildNamed | main.go:42 | a built node is for the given path and carries the given name |
| Build.SlotsLength | main.go:54 | one slot per entry |
| Build.SlotsAligned | main.go:56-66 | slot i, when not nil, holds the node for entry i at `Join(path, name_i)` |
| Build.SlotsAfterTrip | main.go:60-64 | once the flag trips, every later goroutine leaves its slot nil and makes no filesystem call |
| Build.BuildListsOnlyDirs | main.go:43-47 | the builder lists only paths that stat reported as directories |
| Build.CompactFromSlots | main.go:72-76 | every child comes from a slot |
| Build.CompactKeeps | main.go:72-76 | every non-nil slot survives compaction |
| Build.CompactLength | main.go:72-76 | the number of children is the number of non-nil slots |
| Build.CompactAllPresent | main.go:72-76 | with no nil slot nothing is dropped: child j is slot j |
| Build.CompactNames | main.go:72-76 | the children's names are a subsequence of the entry names, in entry order |
| Build.DirStep | main.go:47-78 | a listed directory gives a node whose children are the compacted slots, after a stat and a listing of the path |
| Build.BuildSound | main.go:28-79 | whatever the flag does, every returned node is sound: it exists on disk, has the stat kind, and its children are some of its entries in listing order, each at the joined path, recursively |
| Build.SoundWellFormed | main.go:42-45 | a sound node is well formed: a file has no children, recursively |
| Build.ListedDirYieldsNode | main.go:54-78 | a directory whose listing succeeds always yields a directory node, with at most one child per entry |
| Build.BuildComplete | main.go:56-78 | a build that ends with the flag open returns a node equal to the disk: one child per entry, in order, recursively |
| Build.BuildTripsIffUnhealthy | main.go:36-51 | a build started with the flag open trips it exactly when some reachable path fails to stat or list |
| Build.HealthyBuildMirrors | main.go:28-79 | on a healthy subtree the build does not trip and returns the exact image of the disk |
| Build.EmptyDirectory | main.go:47-78 | an empty directory gives a directory node with no children, after one stat and one listing |
| Build.MissingChildTrips | main.go:36-39 | a listed entry that no longer exists trips the flag with a single stat |
| Build.LaterSiblingSkipped | main.go:60-64 | the sibling after a trip leaves its slot nil and makes no call |
| Build.PartialTreeAfterFailure | main.go:47-78 | a listed directory with a vanished entry still comes back as a node, with the flag tripped and the later sibling skipped |
| Search.SearchDFS | main.go:91-98 | the printed paths are those of the nodes matching the query, in pre-order (`Hits(PreOrder(node), query)`) |
| Search.ContainsIff | main.go:92 | the substring test holds exactly when the query occurs at some position of the name |
| Search.ToLowerIdempotent | main.go:92 | lower-casing twice is lower-casing once |
| Search.HitsAppend | main.go:95-97 | the output for a forest is the outputs of its trees in turn |
| Search.HitsMembership | main.go:91-98 | a path is printed exactly when some node with that path matches the query |
| Search.HitsBound | main.go:91-98 | at most one line per node |
| Search.EmptyQueryHitsAll | main.go:91-98 | the empty query prints every node's path, in pre-order |
| Search.NoMatchNoOutput | main.go:91-98 | a query that no node matches prints nothing |
| Search.RootFirst | main.go:92-94 | a matching root is printed first |
| Search.CaseInsensitive | main.go:92 | the query's case does not change the output |
| Search.SearchLineCount | treego/main.go:89-96 | the number of lines is at most the number of nodes, and equal to it for the empty query |
| Search.LowerMissing | main.go:92 | a letter absent from a string in both cases is absent after lower-casing |
| Search.MissingCharNotContained | main.go:92 | a query holding a character the name lacks is not contained in the name |
| Fixture.RootPreOrder | main_test.go:30-48 | the pre-order of the test tree |
| Print.ScanForMatch | main.go:107-113 | the inner loop finds a match exactly when some immediate child's name matches |
| Print.PrintTreeDFS | main.go:100-133 | the printed lines are `prefix + branch + name` for the rows of `Rows`, in order |
| Print.RowsStep | main.go:101-131 | one iteration of the loop: a skipped child adds nothing; a kept child adds its line, then for a directory the lines of the recursive call |
| Print.TextsAppend | main.go:128-130 | the lines of a concatenation are the lines of the parts |
| Print.RowsSound | main.go:100-133 | every row passes both filters, has a tee or corner branch, and is printed under the prefix or under the prefix extended by one 4-column unit or more |
| Print.PrintedLines | main.go:100-128 | every line starts with the prefix; with `dirsOnly` every line names a directory; with a pattern every line names a match or a directory with a matching immediate child |
| Print.ChildCorner | main.go:121-128 | child i has a first-level corner line exactly when it is the last raw child and it is kept |
| Print.CornerIffLastKept | main.go:121-127 | a first-level line uses the corner exactly when the child at the last raw index is kept; if it is filtered out, no line at that level uses the corner |
| Print.LevelLines | main.go:101-128 | the lines printed at the given prefix are exactly the kept children, in index order, each with the corner branch when it is the last raw child |
| Print.KeptChildBlock | main.go:121-131 | a kept child's line is followed immediately by the lines of its subtree, printed under the prefix extended by exactly one unit: four spaces when last, a bar otherwise |
| Print.KeptChildPrinted | main.go:101-128 | every kept child, at any index and under any filter, gets its line |
| Print.RowCount | main.go:100-133 | at most one line per node below the root; a node without children prints nothing |
| Print.UnfilteredIsPreOrder | main.go:100-133 | with neither filter, the lines name every node below the root in pre-order |
| Walk.BuiltTreePrintsEveryNode | main.go:28-133 | without filters, a tree the builder returns prints one line for every node below the root, in pre-order |
| Scenarios.File1Matches | main_test.go:276-300 | the test's upper-case query "FILE1" matches "file1.txt" |
| Scenarios.SearchUpperCase | main_test.go:276-300 | searching the test tree for "FILE1" prints the path of "file1.txt" |
| Scenarios.NoNameMatchesNonexistent | main_test.go:345 | a name without the letter n in either case does not match "nonexistent" |
| Scenarios.SearchNonexistent | main_test.go:331-355 | searching the test tree for "nonexistent" prints nothing |
| Scenarios.RowsFile3 | main_test.go:642-656 | the pattern `file3` prints `dir1`, because an immediate child matches, and `file3.txt` beneath it |
| Scenarios.PrintFile3 | main_test.go:642-656 | the exact lines printed for the pattern `file3` |
| Scenarios.PrintFile4 | main_test.go:618-640 | the lookahead is one level deep: the pattern `file4` prints nothing |
| Scenarios.RowsDirsOnly | main_test.go:449-485 | with only directories wanted, the rows are `dir1`, `subdir1` beneath it, and `dir2` |
| Scenarios.PrintDirsOnly | main_test.go:449-485 | the exact lines with only directories wanted; no top-level corner, because the last raw child is a file |

## Left out

- Goroutines, `sync.WaitGroup` and the channel itself. The fan-out runs in one
  fixed schedule: entries in index order, each goroutine complete before the
  next starts. Each goroutine writes only its own slot before the join, so
  this is a real schedule. The model does not capture other interleavings.
  They can only change which siblings still run after a trip.
- Build.BuildTreeSafe: the node name comes from stat's base name of the path.
  A child is built under its entry name. `Fs.BaseNameOfJoin` proves the two
  are the same.
- `filepath.Join` is modelled for a clean directory path and an entry name,
  including the root "." (the entry name alone). `filepath.Clean` of an
  unclean root path is not modelled: the root is taken as given.
- Permission and I/O errors are modelled as a missing path (stat fails) or
  an `UnreadableDir` (stat succeeds, listing fails). Symbolic links are not
  modelled.
- `strings.ToLower` is modelled for ASCII letters only. Unicode case mapping
  is not modelled.
- `regexp.Regexp` is an abstract predicate on names. Compiling a pattern,
  and its errors, belong to the command line.
- `fmt.Println`: the printed lines are returned as a sequence.
- The unused `job` struct is not modelled.
- The `main` function of `main.go` and all of `cmd/treego/main.go` are not
  modelled: flag parsing, usage text, the root stat and the dispatch.
- The concurrency test of `main_test.go` and its benchmarks are not modelled.
- Scenarios.RowsFile3, Scenarios.PrintFile3, Scenarios.PrintFile4: the
  regular expressions `file3` and `file4` are taken as any pattern that
  matches that one name of the test tree and no other.
- Scenarios.SearchUpperCase states that the path is printed, not the whole
  output.
