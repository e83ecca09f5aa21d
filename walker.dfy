/**
  The directory walker of the scan engine (`scan_recursive` in
  src/core/scanner.rs) and the progress counters it updates.

  The filesystem is an `Entry` tree: what `is_symlink`, `is_dir`, `read_dir`
  and `metadata` report for one path. `Scan` and `Visited` say what a walk
  of an entry builds and in which order it visits; `Reporter.ScanRecursive`
  is the walk itself, written as the source writes it, and is proved to
  build exactly `Scan(e)` and to send exactly one snapshot per visited entry.
*/
module ScanWalk {
  import opened Wrappers
  import opened FileNodes

  /** One path of the filesystem as the walker sees it. `len` is `None` when
      `metadata` fails. */
  datatype Entry =
    | File(name: string, path: string, len: Option<nat>)
    | Dir(name: string, path: string, listing: Listing)
    | Symlink(name: string, path: string)

  /** What `read_dir` gives for a directory: a failure, or the entries it
      yields, in the order it yields them. */
  datatype Listing = Unreadable | Listed(entries: seq<Entry>)

  /** The live progress counters and their snapshots (`ScanProgress`,
      without its start instant). */
  datatype ScanProgress = ScanProgress(filesScanned: nat, bytesScanned: nat, currentPath: string)

  /** `ScanProgress::default()`. */
  const InitialProgress := ScanProgress(0, 0, "")

  /** What the scan sends to its consumer. */
  datatype ScanMessage =
    | Progress(progress: ScanProgress)
    | Completed(root: FileNode)
    | Error(reason: string)

  /** The bytes an entry adds to `bytes_scanned` on its own: the length of a
      file whose metadata could be read, and nothing otherwise. A symbolic
      link reached at the root is treated as one whose target is missing. */
  function OwnBytes(e: Entry): nat
  {
    if e.File? && e.len.Some? then e.len.value else 0
  }

  /** The node a walk of `e` returns. */
  function Scan(e: Entry): FileNode
    decreases e, 1
  {
    match e
    case File(n, p, len) => FileNode(n, p, if len.Some? then len.value else 0, false, [])
    case Symlink(n, p) => FileNode(n, p, 0, false, [])
    case Dir(n, p, listing) =>
      var kids := if listing.Listed? then ScanAll(listing.entries) else [];
      FileNode(n, p, SumSizes(kids), true, SortBySize(kids))
  }

  /** The nodes of a listing's entries, in listing order, symbolic links left out. */
  function ScanAll(es: seq<Entry>): seq<FileNode>
    decreases es, 0
  {
    if es == [] then [] else (if es[0].Symlink? then [] else [Scan(es[0])]) + ScanAll(es[1..])
  }

  /** The entries a walk of `e` visits, in visiting order: the entry itself,
      then, for a readable directory, each non-link child's own visits in
      listing order (depth first, pre-order). */
  function Visited(e: Entry): seq<Entry>
    decreases e, 1
  {
    if e.Dir? && e.listing.Listed? then [e] + VisitedAll(e.listing.entries) else [e]
  }

  function VisitedAll(es: seq<Entry>): seq<Entry>
    decreases es, 0
  {
    if es == [] then [] else (if es[0].Symlink? then [] else Visited(es[0])) + VisitedAll(es[1..])
  }

  /** The counters once `v` has been visited. */
  function Visit(p: ScanProgress, v: Entry): ScanProgress
  {
    ScanProgress(p.filesScanned + 1, p.bytesScanned + OwnBytes(v), v.path)
  }

  /** The snapshot sent on visiting `v`: it is taken after the count and the
      path are updated and before a file's length is added. */
  function Snapshot(p: ScanProgress, v: Entry): ScanProgress
  {
    ScanProgress(p.filesScanned + 1, p.bytesScanned, v.path)
  }

  /** The counters after visiting `vs` in order, starting from `p`. */
  function Advance(vs: seq<Entry>, p: ScanProgress): ScanProgress
  {
    if vs == [] then p else Advance(vs[1..], Visit(p, vs[0]))
  }

  /** The messages sent while visiting `vs` in order, starting from `p`. */
  function Snapshots(vs: seq<Entry>, p: ScanProgress): seq<ScanMessage>
  {
    if vs == [] then [] else [Progress(Snapshot(p, vs[0]))] + Snapshots(vs[1..], Visit(p, vs[0]))
  }

  function SumOwnBytes(vs: seq<Entry>): nat
  {
    if vs == [] then 0 else OwnBytes(vs[0]) + SumOwnBytes(vs[1..])
  }

  function VisitedPaths(vs: seq<Entry>): multiset<string>
  {
    if vs == [] then multiset{} else multiset{vs[0].path} + VisitedPaths(vs[1..])
  }

  /** The shared counters and the sending end of the channel. */
  class Reporter {
    var progress: ScanProgress
    var outbox: seq<ScanMessage>

    constructor ()
      ensures progress == InitialProgress && outbox == []
    {
      progress := InitialProgress;
      outbox := [];
    }

    /** `scan_recursive`: visits `e` and everything below it, returns the
        node for `e`, and sends one snapshot per visited entry. */
    method ScanRecursive(e: Entry) returns (node: FileNode)
      modifies this
      decreases e, 1
      ensures node == Scan(e)
      ensures outbox == old(outbox) + Snapshots(Visited(e), old(progress))
      ensures progress == Advance(Visited(e), old(progress))
    {
      var isDir := e.Dir?;
      progress := progress.(filesScanned := progress.filesScanned + 1, currentPath := e.path);
      outbox := outbox + [Progress(progress)];
      var size: nat := 0;
      var children: seq<FileNode> := [];
      if isDir {
        if e.listing.Listed? {
          children, size := ScanListing(e.listing.entries);
        }
        children := SortBySize(children);
      } else if e.File? && e.len.Some? {
        size := e.len.value;
        progress := progress.(bytesScanned := progress.bytesScanned + size);
      }
      node := FileNode(e.name, e.path, size, isDir, children);
      VisitSplit(e, old(progress));
    }

    /** The loop of `scan_recursive` over the entries of a directory that
        could be listed: skips symbolic links, walks every other entry in
        listing order, adds its size and pushes its node. */
    method ScanListing(es: seq<Entry>) returns (children: seq<FileNode>, size: nat)
      modifies this
      decreases es, 0
      ensures children == ScanAll(es) && size == SumSizes(children)
      ensures outbox == old(outbox) + Snapshots(VisitedAll(es), old(progress))
      ensures progress == Advance(VisitedAll(es), old(progress))
    {
      children, size := [], 0;
      ghost var visited: seq<Entry> := [];
      ghost var p0, q0 := progress, outbox;
      for i := 0 to |es|
        invariant children == ScanAll(es[..i]) && size == SumSizes(children)
        invariant visited == VisitedAll(es[..i])
        invariant outbox == q0 + Snapshots(visited, p0)
        invariant progress == Advance(visited, p0)
      {
        ScanAllSnoc(es, i);
        VisitedAllSnoc(es, i);
        if es[i].Symlink? {
          continue;
        }
        ghost var v := Visited(es[i]);
        AdvanceAppend(visited, v, p0);
        AppendAssoc(q0, Snapshots(visited, p0), Snapshots(v, progress));
        var child := ScanRecursive(es[i]);
        SumSizesAppend(children, [child]);
        size := size + child.size;
        children := children + [child];
        visited := visited + v;
      }
      assert es[..|es|] == es;
    }
  }

  lemma AppendAssoc<T>(a: seq<T>, b: seq<T>, c: seq<T>)
    ensures (a + b) + c == a + (b + c)
  {
  }

  /** A walk of `e` sends `e`'s own snapshot first, then those of its
      children's walks, from the counters as `e` left them. */
  lemma VisitSplit(e: Entry, p: ScanProgress)
    ensures e.Dir? && e.listing.Listed? ==>
      && Snapshots(Visited(e), p) == [Progress(Snapshot(p, e))] + Snapshots(VisitedAll(e.listing.entries), Visit(p, e))
      && Advance(Visited(e), p) == Advance(VisitedAll(e.listing.entries), Visit(p, e))
    ensures !(e.Dir? && e.listing.Listed?) ==>
      Snapshots(Visited(e), p) == [Progress(Snapshot(p, e))] && Advance(Visited(e), p) == Visit(p, e)
  {
    var vs := Visited(e);
    assert vs[0] == e;
    if e.Dir? && e.listing.Listed? {
      assert vs[1..] == VisitedAll(e.listing.entries);
    } else {
      assert vs[1..] == [];
    }
  }

  lemma {:induction false} ScanAllAppend(a: seq<Entry>, b: seq<Entry>)
    ensures ScanAll(a + b) == ScanAll(a) + ScanAll(b)
  {
    if a == [] {
      assert a + b == b;
    } else {
      assert (a + b)[0] == a[0] && (a + b)[1..] == a[1..] + b;
      ScanAllAppend(a[1..], b);
    }
  }

  lemma {:induction false} VisitedAllAppend(a: seq<Entry>, b: seq<Entry>)
    ensures VisitedAll(a + b) == VisitedAll(a) + VisitedAll(b)
  {
    if a == [] {
      assert a + b == b;
    } else {
      assert (a + b)[0] == a[0] && (a + b)[1..] == a[1..] + b;
      VisitedAllAppend(a[1..], b);
    }
  }


  lemma ScanAllSnoc(es: seq<Entry>, i: nat)
    requires i < |es|
    ensures ScanAll(es[..i + 1]) == ScanAll(es[..i]) + (if es[i].Symlink? then [] else [Scan(es[i])])
  {
    assert es[..i + 1] == es[..i] + [es[i]];
    ScanAllAppend(es[..i], [es[i]]);
    assert [es[i]][1..] == [];
  }

  lemma VisitedAllSnoc(es: seq<Entry>, i: nat)
    requires i < |es|
    ensures VisitedAll(es[..i + 1]) == VisitedAll(es[..i]) + (if es[i].Symlink? then [] else Visited(es[i]))
  {
    assert es[..i + 1] == es[..i] + [es[i]];
    VisitedAllAppend(es[..i], [es[i]]);
    assert [es[i]][1..] == [];
  }

  /** Visiting `a` and then `b` is visiting `a + b`. */
  lemma {:induction false} AdvanceAppend(a: seq<Entry>, b: seq<Entry>, p: ScanProgress)
    ensures Advance(a + b, p) == Advance(b, Advance(a, p))
    ensures Snapshots(a + b, p) == Snapshots(a, p) + Snapshots(b, Advance(a, p))
  {
    if a == [] {
      assert a + b == b;
    } else {
      assert (a + b)[0] == a[0] && (a + b)[1..] == a[1..] + b;
      AdvanceAppend(a[1..], b, Visit(p, a[0]));
    }
  }

  /** The counters after a sequence of visits: one more entry per visit,
      the readable file lengths added, and the last visited path. */
  lemma {:induction false} AdvanceCounts(vs: seq<Entry>, p: ScanProgress)
    ensures Advance(vs, p).filesScanned == p.filesScanned + |vs|
    ensures Advance(vs, p).bytesScanned == p.bytesScanned + SumOwnBytes(vs)
    ensures Advance(vs, p).currentPath == if vs == [] then p.currentPath else vs[|vs| - 1].path
  {
    if vs != [] {
      AdvanceCounts(vs[1..], Visit(p, vs[0]));
    }
  }

  /** The `k`-th snapshot of a sequence of visits counts `k + 1` entries,
      names the `k`-th visited path, and holds the bytes of the entries
      visited strictly before it. */
  lemma {:induction false} SnapshotsAt(vs: seq<Entry>, p: ScanProgress)
    ensures |Snapshots(vs, p)| == |vs|
    ensures forall k :: 0 <= k < |vs| ==>
      Snapshots(vs, p)[k] == Progress(ScanProgress(p.filesScanned + k + 1, p.bytesScanned + SumOwnBytes(vs[..k]), vs[k].path))
  {
    if vs != [] {
      var q := Visit(p, vs[0]);
      SnapshotsAt(vs[1..], q);
      forall k | 0 <= k < |vs|
        ensures Snapshots(vs, p)[k] == Progress(ScanProgress(p.filesScanned + k + 1, p.bytesScanned + SumOwnBytes(vs[..k]), vs[k].path))
      {
        if k > 0 {
          assert vs[..k][0] == vs[0] && vs[..k][1..] == vs[1..][..k - 1];
        }
      }
    }
  }

  lemma {:induction false} SumOwnBytesAppend(a: seq<Entry>, b: seq<Entry>)
    ensures SumOwnBytes(a + b) == SumOwnBytes(a) + SumOwnBytes(b)
    ensures VisitedPaths(a + b) == VisitedPaths(a) + VisitedPaths(b)
  {
    if a == [] {
      assert a + b == b;
    } else {
      assert (a + b)[0] == a[0] && (a + b)[1..] == a[1..] + b;
      SumOwnBytesAppend(a[1..], b);
    }
  }

  /** Every tree the walker builds is well formed: each directory's size is
      the sum of its children's sizes and its children are sorted largest
      first; files have no children. */
  lemma {:induction false} ScanWellFormed(e: Entry)
    ensures WellFormed(Scan(e))
    decreases e, 1
  {
    if e.Dir? {
      var kids := if e.listing.Listed? then ScanAll(e.listing.entries) else [];
      if e.listing.Listed? {
        ScanAllWellFormed(e.listing.entries);
      }
      var children := SortBySize(kids);
      SortBySizeIsStableSort(kids);
      SortBySizeMeasures(kids);
      forall i | 0 <= i < |children|
        ensures WellFormed(children[i])
      {
        assert children[i] in multiset(kids);
      }
    }
  }

  lemma {:induction false} ScanAllWellFormed(es: seq<Entry>)
    ensures forall i :: 0 <= i < |ScanAll(es)| ==> WellFormed(ScanAll(es)[i])
    decreases es, 0
  {
    if es != [] {
      ScanAllWellFormed(es[1..]);
      if !es[0].Symlink? {
        ScanWellFormed(es[0]);
      }
    }
  }

  /** A directory's children are its listing's non-link entries, stably
      sorted largest first (entries of equal size keep listing order), and
      its size is their total. */
  lemma ScanDirectory(n: string, p: string, es: seq<Entry>)
    ensures Scan(Dir(n, p, Listed(es))).size == SumSizes(ScanAll(es))
    ensures Descending(Scan(Dir(n, p, Listed(es))).children)
    ensures multiset(Scan(Dir(n, p, Listed(es))).children) == multiset(ScanAll(es))
    ensures forall k: nat :: WithSize(Scan(Dir(n, p, Listed(es))).children, k) == WithSize(ScanAll(es), k)
  {
    SortBySizeIsStableSort(ScanAll(es));
  }

  /** The visits of a walk match the tree it returns: one visit per node,
      the visited file lengths add up to the root's size, and the visited
      paths are the tree's paths. */
  lemma {:induction false} VisitedMatchesTree(e: Entry)
    ensures |Visited(e)| == NodeCount(Scan(e))
    ensures SumOwnBytes(Visited(e)) == Scan(e).size
    ensures VisitedPaths(Visited(e)) == TreePaths(Scan(e))
    decreases e, 1
  {
    if e.Dir? && e.listing.Listed? {
      var es := e.listing.entries;
      VisitedAllMatchesTrees(es);
      SortBySizeMeasures(ScanAll(es));
      var vs := Visited(e);
      assert vs[0] == e && vs[1..] == VisitedAll(es);
    }
  }

  lemma {:induction false} VisitedAllMatchesTrees(es: seq<Entry>)
    ensures |VisitedAll(es)| == NodeCountAll(ScanAll(es))
    ensures SumOwnBytes(VisitedAll(es)) == SumSizes(ScanAll(es))
    ensures VisitedPaths(VisitedAll(es)) == TreePathsAll(ScanAll(es))
    decreases es, 0
  {
    if es != [] {
      VisitedAllMatchesTrees(es[1..]);
      var rest := VisitedAll(es[1..]);
      if es[0].Symlink? {
        assert VisitedAll(es) == rest;
        assert ScanAll(es) == ScanAll(es[1..]);
      } else {
        VisitedMatchesTree(es[0]);
        SumOwnBytesAppend(Visited(es[0]), rest);
        var ns := ScanAll(es);
        assert ns[0] == Scan(es[0]) && ns[1..] == ScanAll(es[1..]);
      }
    }
  }

  /** Symbolic links below the root are never visited. */
  lemma {:induction false} NoLinkVisited(e: Entry)
    ensures Visited(e)[0] == e
    ensures forall k :: 0 < k < |Visited(e)| ==> !Visited(e)[k].Symlink?
    decreases e, 1
  {
    if e.Dir? && e.listing.Listed? {
      NoLinkVisitedAll(e.listing.entries);
    }
  }

  lemma {:induction false} NoLinkVisitedAll(es: seq<Entry>)
    ensures forall k :: 0 <= k < |VisitedAll(es)| ==> !VisitedAll(es)[k].Symlink?
    decreases es, 0
  {
    if es != [] {
      NoLinkVisitedAll(es[1..]);
      if !es[0].Symlink? {
        NoLinkVisited(es[0]);
      }
    }
  }

  /** A symbolic link anywhere in a listing changes nothing: not the node
      built, not the messages sent, not the final counters. */
  lemma SymlinkChildIgnored(n: string, p: string, a: seq<Entry>, b: seq<Entry>, link: Entry, q: ScanProgress)
    requires link.Symlink?
    ensures Scan(Dir(n, p, Listed(a + [link] + b))) == Scan(Dir(n, p, Listed(a + b)))
    ensures Snapshots(Visited(Dir(n, p, Listed(a + [link] + b))), q) == Snapshots(Visited(Dir(n, p, Listed(a + b))), q)
    ensures Advance(Visited(Dir(n, p, Listed(a + [link] + b))), q) == Advance(Visited(Dir(n, p, Listed(a + b))), q)
  {
    ScanAllAppend(a, [link]);
    ScanAllAppend(a + [link], b);
    ScanAllAppend(a, b);
    VisitedAllAppend(a, [link]);
    VisitedAllAppend(a + [link], b);
    VisitedAllAppend(a, b);
    assert ScanAll([link]) == [] && VisitedAll([link]) == [];
    assert ScanAll(a + [link]) == ScanAll(a) && VisitedAll(a + [link]) == VisitedAll(a);
    assert ScanAll(a + [link] + b) == ScanAll(a + b);
    var d1, d2 := Dir(n, p, Listed(a + [link] + b)), Dir(n, p, Listed(a + b));
    var v1, v2 := Visited(d1), Visited(d2);
    assert v1[1..] == v2[1..];
    assert Visit(q, d1) == Visit(q, d2) && Snapshot(q, d1) == Snapshot(q, d2);
  }

  /** Soft errors: a directory that cannot be listed is an empty directory
      of size 0, and a file whose metadata cannot be read has size 0 and
      adds nothing to the byte counter. Neither stops the walk. */
  lemma SoftErrors(n: string, p: string, q: ScanProgress)
    ensures Scan(Dir(n, p, Unreadable)) == FileNode(n, p, 0, true, [])
    ensures Visited(Dir(n, p, Unreadable)) == [Dir(n, p, Unreadable)]
    ensures Scan(File(n, p, None)) == FileNode(n, p, 0, false, [])
    ensures Advance(Visited(File(n, p, None)), q).bytesScanned == q.bytesScanned
  {
  }

  /** What one whole walk from fresh counters reports: exactly one snapshot
      per node of the returned tree, the `k`-th counting `k + 1` entries and
      naming the `k`-th visited path (the root's first), each holding the
      bytes of the files visited strictly before it; afterwards the live
      counters hold the node count and the root's size. */
  lemma WalkReport(e: Entry)
    ensures var vs, s := Visited(e), Snapshots(Visited(e), InitialProgress);
      && |s| == |vs| == NodeCount(Scan(e))
      && (forall k :: 0 <= k < |s| ==>
            && s[k].Progress?
            && s[k].progress.filesScanned == k + 1
            && s[k].progress.currentPath == vs[k].path
            && s[k].progress.bytesScanned == SumOwnBytes(vs[..k]))
      && s[0].progress.currentPath == e.path
      && Advance(vs, InitialProgress).filesScanned == NodeCount(Scan(e))
      && Advance(vs, InitialProgress).bytesScanned == Scan(e).size
  {
    var vs := Visited(e);
    SnapshotsAt(vs, InitialProgress);
    AdvanceCounts(vs, InitialProgress);
    VisitedMatchesTree(e);
    NoLinkVisited(e);
  }

  /** The last snapshot of a sequence of visits lacks only the last visited
      entry's own bytes. */
  lemma LastSnapshotBytes(vs: seq<Entry>, p: ScanProgress)
    requires vs != []
    ensures |Snapshots(vs, p)| == |vs|
    ensures Snapshots(vs, p)[|vs| - 1].Progress?
    ensures Snapshots(vs, p)[|vs| - 1].progress.bytesScanned + OwnBytes(vs[|vs| - 1]) == p.bytesScanned + SumOwnBytes(vs)
  {
    var last := |vs| - 1;
    SnapshotsAt(vs, p);
    assert vs == vs[..last] + [vs[last]];
    SumOwnBytesAppend(vs[..last], [vs[last]]);
    assert [vs[last]][1..] == [];
  }

  /** The last snapshot of a walk lags the final byte total by the last
      visited entry's own bytes. */
  lemma LastSnapshotLags(e: Entry)
    ensures var vs, s := Visited(e), Snapshots(Visited(e), InitialProgress);
      |s| == |vs| > 0 && s[|s| - 1].Progress? && s[|s| - 1].progress.bytesScanned + OwnBytes(vs[|vs| - 1]) == Scan(e).size
  {
    NoLinkVisited(e);
    LastSnapshotBytes(Visited(e), InitialProgress);
    VisitedMatchesTree(e);
  }
}
