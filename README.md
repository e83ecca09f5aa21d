# Gate scan engine, in Dafny

Gate is a disk-usage analyser. The user picks a volume. A background thread
walks it depth first and builds a tree of `FileNode`s: each node records a
size, and each directory's children are sorted largest first. While it
walks, the thread streams progress snapshots to the window over a channel.
When the walk ends, it sends one final message, either the finished tree or
an error. The window drains the channel once per frame. It shows the tree
with a case-insensitive search filter. src/ui/charts.rs also defines
`show_charts`, which computes a chart of a directory's eight largest
children plus an "Others" slice, but the window never calls it.

This project models that core and proves what it promises:

- `wrappers.dfy`: `Option` and `Min`.
- `filenodes.dfy` (module `FileNodes`):
  - the `FileNode` tree and the measures on it: total size, node count and paths;
  - `WellFormed`, the shape every scanned tree has;
  - `SortBySize`, the stable sort, largest first, that `sort_by(|a, b| b.size.cmp(&a.size))` performs. It is proved to be a stable descending sort, and to be the only one.
- `walker.dfy` (module `ScanWalk`): `scan_recursive`.
  - The filesystem is an `Entry` tree with three kinds of entry:
    - a file, whose length may be unreadable;
    - a directory, whose listing may fail;
    - a symbolic link.
  - `Scan` and `Visited` are the specification: what a walk builds, and which entries it visits in which order.
  - `Reporter.ScanRecursive` is the walk, written as the source writes it. It mutates the progress counters and appends to an outbox, and it is proved to build `Scan(e)` and to send one snapshot per visited entry.
- `session.dfy` (module `ScanSession`): `Scanner::new` and `try_recv`.
  - The channel is a FIFO of the messages the thread produces.
  - The thread's `catch_unwind` is a `WalkOutcome` parameter: the walk either returns, or panics after some number of snapshots.
- `app.dfy` (module `App`): the scan state of `GateApp`.
  - It covers `start_scan`, `delete_item` (the trash result is a parameter), `go_home`, the Close button of the error window, and the drain loop at the start of `update`.
  - `Absorb` and `AbsorbAll` say what messages do to the window. They are used to prove the drain loop and the outcome of whole sessions.
- `tree.dfy` (module `Tree`):
  - `matches_search` and the visibility filter of `recursive_tree`, with ASCII lower-casing;
  - the selection update of `handle_response`.
- `charts.dfy` (module `Charts`): the entry computation of `show_charts`:
  - the sort;
  - the top eight, each with the palette colour `i % 8`;
  - the accounted size;
  - the "Others" slice, computed by `saturating_sub`.

The filesystem of the selected mount point is passed in as a `volume: Entry` parameter.

## Model

| member | source | states |
|---|---|---|
| FileNodes.SortBySizeIsStableSort | src/core/scanner.rs:103 | sorting children largest first gives a descending permutation of them in which nodes of equal size keep their order |
| FileNodes.StableSortUnique | src/core/scanner.rs:103 | any two descending sequences that agree on the order of each size class are equal, so every stable descending sort agrees with `SortBySize` |
| FileNodes.SortBySizeOfDescending | src/core/scanner.rs:103 | sorting already-sorted children changes nothing |
| FileNodes.SortBySizeMeasures | src/core/scanner.rs:103 | sorting keeps the children's total size, node count and multiset of paths |
| FileNodes.SortBySizeLength | src/core/scanner.rs:103 | sorting keeps the number of children |
| FileNodes.InsertBySizeDescending | src/core/scanner.rs:103 | one insertion step keeps a sequence sorted largest first |
| FileNodes.InsertBySizeStable | src/core/scanner.rs:103 | one insertion step keeps the order of every size class |
| FileNodes.InsertBySizeMultiset | src/core/scanner.rs:103 | one insertion step adds exactly the inserted node |
| FileNodes.SumSizesAppend | src/core/scanner.rs:99 | sizes add up over concatenation |
| FileNodes.SumSizesPrefix | src/core/scanner.rs:99 | a prefix of children never weighs more than all of them |
| ScanWalk.Reporter.ScanRecursive | src/core/scanner.rs:71-113 | the walk returns `Scan(e)`, appends one snapshot per visited entry as `Snapshots` says, and leaves the counters as `Advance` says |
| ScanWalk.Reporter.ScanListing | src/core/scanner.rs:93-102 | the loop over a listing skips links, walks the other entries in listing order, and sums their sizes into the parent, with the children's messages and counters |
| ScanWalk.Reporter.constructor | src/core/scanner.rs:23-31 | fresh counters are zero with an empty path, and nothing has been sent |
| ScanWalk.VisitSplit | src/core/scanner.rs:84-101 | each visit sends its own snapshot before those of its children (pre-order) |
| ScanWalk.ScanWellFormed | src/core/scanner.rs:79-103 | every tree the walk builds has, at every directory, size equal to the sum of its children's sizes and children sorted largest first; files have no children |
| ScanWalk.ScanDirectory | src/core/scanner.rs:93-103 | a listed directory's children are its non-link entries' nodes, stably sorted largest first, and its size is their sum |
| ScanWalk.SymlinkChildIgnored | src/core/scanner.rs:96 | inserting a link anywhere in a listing changes neither the node, nor the messages sent, nor the final counters |
| ScanWalk.SoftErrors | src/core/scanner.rs:79-110 | an unlistable directory is an empty directory of size 0 that visits only itself; a file whose metadata fails has size 0 and adds no bytes |
| ScanWalk.VisitedMatchesTree | src/core/scanner.rs:84-110 | a walk visits one entry per node of the tree it returns; the visited file lengths sum to the root's size; the visited paths are the tree's paths |
| ScanWalk.NoLinkVisited | src/core/scanner.rs:96 | no symbolic link below the root is ever visited |
| ScanWalk.WalkReport | src/core/scanner.rs:84-110 | a walk from fresh counters sends exactly NodeCount snapshots; the k-th counts k+1 files, names the k-th visited path (the root's first), and holds the bytes of the entries visited strictly before it; the final counters hold the node count and the root's size |
| ScanWalk.LastSnapshotLags | src/core/scanner.rs:84-110 | the last snapshot lags the final byte total by exactly the last visited entry's own bytes |
| ScanWalk.SnapshotsAt | src/core/scanner.rs:84-90 | closed form of the k-th snapshot of any sequence of visits |
| ScanWalk.AdvanceCounts | src/core/scanner.rs:84-110 | the counters after a sequence of visits: one more file per visit, the readable lengths added, the last visited path |
| ScanWalk.AdvanceAppend | src/core/scanner.rs:84-110 | visiting `a` then `b` sends and counts as visiting `a + b` |
| ScanWalk.LastSnapshotBytes | src/core/scanner.rs:84-110 | in any sequence of visits the last snapshot lacks only the last entry's own bytes |
| ScanSession.SessionStreamShape | src/core/scanner.rs:44-64 | a session sends zero or more snapshots and then exactly one terminal message: `Completed` with the walk's tree when the walk returns; `Error("Scan panicked")` after a prefix of the snapshots when it panics |
| ScanSession.Scanner.constructor | src/core/scanner.rs:44-64 | `Scanner::new` runs the walk with fresh counters and its channel carries the session stream |
| ScanSession.Scanner.TryRecv | src/core/scanner.rs:66-68 | returns the oldest message on the channel and removes it, or `None` when the channel is empty; a terminal message is received only after everything else |
| ScanSession.Scanner.SendMore | src/core/scanner.rs:47-62 | the thread's sends append, in order, to what is waiting on the channel |
| ScanSession.TerminalIsLast | src/core/scanner.rs:55-61 | nothing follows a terminal message |
| App.DrainInFrames | src/app.rs:141-164 | draining a batch in two frames leaves the window as draining it at once, and finds a terminal message iff one of the parts holds one |
| App.AbsorbAllProgress | src/app.rs:143-146 | after a batch the progress shown is its last progress message's, or unchanged when it has none |
| App.AbsorbProgressOnly | src/app.rs:143-146 | a batch without terminal message changes only the progress shown |
| App.AbsorbTerminalLast | src/app.rs:147-156 | a batch ending in `Completed(node)` installs `node` and stops scanning; one ending in `Error(e)` shows `e` and stops scanning |
| App.AbsorbClosedBatch | src/app.rs:141-164 | snapshots then a terminal message: scanning stops, the tree or the reason is shown, the progress shown is the last snapshot |
| App.SessionOutcome | src/app.rs:141-164 | a whole drained session installs `Scan(volume)` with the progress counting all its nodes, or shows "Scan panicked" with the progress counting the snapshots sent |
| App.GateApp.DrainMessages | src/app.rs:139-164 | takes every waiting message, applies them in order as `AbsorbAll` says, and drops the scanner iff a terminal message was taken |
| App.GateApp.Show | src/app.rs:143-157 | one arm of the match: the window after one message is `Absorb` of it, and the arm reports whether the message ends the session |
| App.GateApp.StartScan | src/app.rs:45-53 | without a selected mount nothing changes; otherwise scanning starts, the tree and error are cleared, progress is reset, and a fresh scanner carries the new session, with nothing sent or received yet |
| App.GateApp.DeleteItem | src/app.rs:55-64 | a successful trash rescans exactly as `StartScan`; a failed one only shows "Failed to delete: " followed by the reason |
| App.GateApp.GoHome | src/app.rs:66-72 | clears the selected mount, the tree and the scanner, and stops scanning; nothing else changes |
| App.GateApp.CloseError | src/app.rs:400-411 | the Close button of a shown error clears it; nothing else changes |
| App.GateApp.constructor | src/app.rs:25-43 | a new window has no mount, scanner, tree or error, is not scanning, and shows zero progress |
| Tree.ContainsOccurs | src/ui/tree.rs:135 | `contains` is substring search: true iff the query occurs at some index |
| Tree.LowerIdempotent | src/ui/tree.rs:135 | lower-casing is idempotent, so the name test ignores case on both sides |
| Tree.LowerAt | src/ui/tree.rs:135 | lower-casing maps each character on its own and keeps the length |
| Tree.AnyMatchesSome | src/ui/tree.rs:138-143 | the early-returning loop over the children finds a match iff some child matches |
| Tree.MatchesSomeNode | src/ui/tree.rs:134-144 | `matches_search` holds iff some node of the subtree (the node itself or a descendant) has a matching name |
| Tree.EmptyQueryShowsAll | src/ui/tree.rs:45 | with an empty query every row is drawn and every node matches |
| Tree.NameMatchShown | src/ui/tree.rs:134-137 | a row whose own name matches is drawn and matches |
| Tree.UnmatchedFileHidden | src/ui/tree.rs:57-58 | a non-directory whose name misses a non-empty query is hidden |
| Tree.UnmatchedDirShown | src/ui/tree.rs:46-56 | a directory whose name misses a non-empty query is drawn iff one of its children matches |
| Tree.ShownIffMatches | src/ui/tree.rs:44-60 | for a directory or a childless node, being drawn equals matching (or an empty query) |
| Tree.ShownInScannedTree | src/ui/tree.rs:44-60 | in a scanned tree, a row is drawn under a non-empty query iff its subtree holds a matching name |
| Tree.TreeView.HandleResponse | src/ui/tree.rs:146-160 | a click selects the node's path; Open and Delete set the action, with Delete winning; nothing else changes |
| Tree.TreeView.constructor | src/ui/tree.rs:18-23 | no selection and an empty query |
| Charts.ShowCharts | src/ui/charts.rs:19-65 | the loop builds exactly `ChartEntries(node)`: the sort, the first eight named with their colours, the accounted size, and the saturating remainder as "Others" |
| Charts.ChartEmpty | src/ui/charts.rs:19-23 | no entries iff the node has size 0 or no children |
| Charts.ChartNamesLargest | src/ui/charts.rs:30-55 | the named entries are min(8, n) children, with their names and sizes, largest first, with colour `i % 8`; every child left unnamed is no larger than any named one |
| Charts.ChartOthers | src/ui/charts.rs:57-65 | an "Others" entry is appended iff the node is larger than the named children together, and it holds the difference |
| Charts.ChartTotal | src/ui/charts.rs:46-65 | the slices sum to the node's size, or to the named total when the named children alone are larger |
| Charts.ChartOfScannedDirectory | src/ui/charts.rs:46-65 | a scanned directory of positive size has children, and its slices sum exactly to its size |
| Charts.ScannedOthers | src/ui/charts.rs:57 | for a scanned directory the saturating remainder is exactly the total size of the children beyond the first eight |
| Charts.NamedAt | src/ui/charts.rs:47-53 | the i-th named entry carries the i-th child's name and size and colour `Colors[i % 8]` |
| Charts.NamedSizes | src/ui/charts.rs:54 | the named entries' sizes add up to the accounted size |

## Left out

- Threads, `Arc<Mutex<…>>` and `catch_unwind`.
  - The counters have a single owner.
  - A panic is the `WalkOutcome.PanicsAfter(k)` parameter.
  - The poisoned-lock branches (`if let Ok(..) = lock()` failing) are not modelled.
  - How sender and receiver interleave is modelled only through `Scanner.SendMore`. The walk is run whole in the constructor, and its messages are released by `SendMore`.
- Filesystem calls (`read_dir`, `metadata`, `is_dir`, `is_symlink`, `to_string_lossy`).
  - These are replaced by the `Entry` tree.
  - A listing holds only the entries that `entries.flatten()` yields.
  - Names and paths are opaque strings.
- The scan root itself is a symbolic link: the model treats it as a link whose target is missing. The source's `is_dir` and `metadata` follow a link at the root, and the model does not.
- The volume that a mount point names is the `volume` parameter.
- Disk listing (`get_disks` in `go_home` and `GateApp::new`, src/core/disk.rs) and volume selection (src/ui/disk_select.rs) are not part of this model.
- `start_time`, throughput, the percentages of the tree and the chart, and all drawing are floating-point or UI, and are left out.
- `u64` is modelled as unbounded `nat`. The additions `node.size += …`, `files_scanned += 1`, `bytes_scanned += …` and `accounted_size += …` are not checked for wrap-around.
- FileNodes.SortBySize: the in-place `sort_by` of `node.children` and of the chart's vector of references is modelled by the pure stable insertion sort. `StableSortUnique` shows that any stable descending sort gives the same sequence.
- Tree.Lower: `to_lowercase` is ASCII-only here. Unicode case mappings are not modelled.
- The recursive drawing in `recursive_tree` is left out: collapsing headers, and the action from the last child that returned one. Only its filter is modelled.
- `open::that` and `trash::delete` are foreign calls. `trash::delete` appears only as the `TrashOutcome` parameter of `DeleteItem`.
