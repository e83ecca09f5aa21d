/**
  The size-ranked tree the scanner builds (`FileNode` in src/core/scanner.rs),
  the measures taken over it, and the stable "largest first" ordering that
  both the walker and the chart apply to a directory's children.
*/
module FileNodes {

  /** One entry of the scanned tree. `size` is a byte count; for a directory
      it is the total of its children. */
  datatype FileNode = FileNode(name: string, path: string, size: nat, isDir: bool, children: seq<FileNode>)

  /** Total size of a sequence of nodes. */
  function SumSizes(ns: seq<FileNode>): nat
  {
    if ns == [] then 0 else ns[0].size + SumSizes(ns[1..])
  }

  /** Number of nodes of a tree (the node itself and all its descendants). */
  function NodeCount(n: FileNode): nat
    decreases n, 1
  {
    1 + NodeCountAll(n.children)
  }

  function NodeCountAll(ns: seq<FileNode>): nat
    decreases ns, 0
  {
    if ns == [] then 0 else NodeCount(ns[0]) + NodeCountAll(ns[1..])
  }

  /** The paths of all nodes of a tree, with multiplicity. */
  function TreePaths(n: FileNode): multiset<string>
    decreases n, 1
  {
    multiset{n.path} + TreePathsAll(n.children)
  }

  function TreePathsAll(ns: seq<FileNode>): multiset<string>
    decreases ns, 0
  {
    if ns == [] then multiset{} else TreePaths(ns[0]) + TreePathsAll(ns[1..])
  }

  /** Sorted by size, largest first. */
  predicate Descending(s: seq<FileNode>)
  {
    forall i, j :: 0 <= i < j < |s| ==> s[i].size >= s[j].size
  }

  /** The nodes of `s` whose size is `k`, in their order in `s`. A sort is
      stable exactly when it keeps every such subsequence. */
  function WithSize(s: seq<FileNode>, k: nat): seq<FileNode>
  {
    if s == [] then [] else (if s[0].size == k then [s[0]] else []) + WithSize(s[1..], k)
  }

  /** Every node that the scanner can produce has this shape: a directory's
      size is the sum of its children's sizes and its children are sorted
      largest first; a non-directory has no children. */
  predicate WellFormed(n: FileNode)
    decreases n
  {
    && (if n.isDir then n.size == SumSizes(n.children) && Descending(n.children) else n.children == [])
    && forall i :: 0 <= i < |n.children| ==> WellFormed(n.children[i])
  }

  /** Places `x` before the first node that is no larger than it. */
  function InsertBySize(x: FileNode, s: seq<FileNode>): seq<FileNode>
  {
    if s == [] || x.size >= s[0].size then [x] + s else [s[0]] + InsertBySize(x, s[1..])
  }

  /** `sort_by(|a, b| b.size.cmp(&a.size))`: a stable sort, largest first,
      written as an insertion sort. */
  function SortBySize(s: seq<FileNode>): seq<FileNode>
  {
    if s == [] then [] else InsertBySize(s[0], SortBySize(s[1..]))
  }

  lemma {:induction false} SumSizesAppend(a: seq<FileNode>, b: seq<FileNode>)
    ensures SumSizes(a + b) == SumSizes(a) + SumSizes(b)
  {
    if a == [] {
      assert a + b == b;
    } else {
      assert (a + b)[0] == a[0];
      assert (a + b)[1..] == a[1..] + b;
      SumSizesAppend(a[1..], b);
    }
  }

  /** A prefix never weighs more than the whole sequence. */
  lemma {:induction false} SumSizesPrefix(s: seq<FileNode>, n: nat)
    requires n <= |s|
    ensures SumSizes(s[..n]) <= SumSizes(s)
  {
    assert s == s[..n] + s[n..];
    SumSizesAppend(s[..n], s[n..]);
  }

  lemma {:induction false} WithSizeElements(s: seq<FileNode>, k: nat)
    ensures forall y :: y in WithSize(s, k) ==> y in s && y.size == k
  {
    if s != [] {
      WithSizeElements(s[1..], k);
      assert s == [s[0]] + s[1..];
    }
  }

  lemma DescendingTail(s: seq<FileNode>)
    requires Descending(s) && s != []
    ensures Descending(s[1..])
    ensures forall j :: 0 <= j < |s| ==> s[j].size <= s[0].size
  {
  }

  lemma {:induction false} InsertBySizeMultiset(x: FileNode, s: seq<FileNode>)
    ensures multiset(InsertBySize(x, s)) == multiset{x} + multiset(s)
  {
    if s != [] && x.size < s[0].size {
      InsertBySizeMultiset(x, s[1..]);
      assert s == [s[0]] + s[1..];
    }
  }

  /** Inserting a node at the front of a sorted sequence, when it is at
      least as large as the head, keeps it sorted. */
  lemma InsertAtHeadDescending(x: FileNode, s: seq<FileNode>)
    requires Descending(s) && (s == [] || x.size >= s[0].size)
    ensures Descending([x] + s)
  {
    var r := [x] + s;
    if s != [] {
      DescendingTail(s);
      forall i, j | 0 <= i < j < |r|
        ensures r[i].size >= r[j].size
      {
        assert r[j] == s[j - 1];
        if i > 0 {
          assert r[i] == s[i - 1];
        }
      }
    }
  }

  /** Putting a node that is at least as large as every node of `t` before
      a sorted `t` keeps it sorted. */
  lemma ConsDescending(y: FileNode, t: seq<FileNode>)
    requires Descending(t) && forall j :: 0 <= j < |t| ==> t[j].size <= y.size
    ensures Descending([y] + t)
  {
    var r := [y] + t;
    forall i, j | 0 <= i < j < |r|
      ensures r[i].size >= r[j].size
    {
      assert r[j] == t[j - 1];
      if i > 0 {
        assert r[i] == t[i - 1];
      }
    }
  }

  lemma {:induction false} InsertBySizeDescending(x: FileNode, s: seq<FileNode>)
    requires Descending(s)
    ensures Descending(InsertBySize(x, s))
  {
    if s == [] || x.size >= s[0].size {
      InsertAtHeadDescending(x, s);
    } else {
      DescendingTail(s);
      var t := InsertBySize(x, s[1..]);
      InsertBySizeDescending(x, s[1..]);
      InsertBySizeMultiset(x, s[1..]);
      forall j | 0 <= j < |t|
        ensures t[j].size <= s[0].size
      {
        assert t[j] in multiset(t);
        if t[j] != x {
          assert t[j] in multiset(s[1..]);
          assert t[j] in s[1..];
        }
      }
      ConsDescending(s[0], t);
    }
  }

  lemma {:induction false} InsertBySizeStable(x: FileNode, s: seq<FileNode>, k: nat)
    requires Descending(s)
    ensures WithSize(InsertBySize(x, s), k) == (if x.size == k then [x] else []) + WithSize(s, k)
  {
    var r := InsertBySize(x, s);
    if s == [] || x.size >= s[0].size {
      assert r[1..] == s;
    } else {
      DescendingTail(s);
      var t := InsertBySize(x, s[1..]);
      InsertBySizeStable(x, s[1..], k);
      assert r == [s[0]] + t && r[1..] == t;
      assert WithSize(r, k) == (if s[0].size == k then [s[0]] else []) + WithSize(t, k);
    }
  }

  /** `SortBySize` is a stable sort, largest first: its result is ordered, it
      is a permutation of its input, and nodes of equal size keep their order. */
  lemma {:induction false} SortBySizeIsStableSort(s: seq<FileNode>)
    ensures Descending(SortBySize(s))
    ensures multiset(SortBySize(s)) == multiset(s)
    ensures forall k: nat :: WithSize(SortBySize(s), k) == WithSize(s, k)
  {
    if s != [] {
      var t := SortBySize(s[1..]);
      SortBySizeIsStableSort(s[1..]);
      InsertBySizeMultiset(s[0], t);
      InsertBySizeDescending(s[0], t);
      forall k: nat
        ensures WithSize(SortBySize(s), k) == WithSize(s, k)
      {
        InsertBySizeStable(s[0], t, k);
      }
      assert s == [s[0]] + s[1..];
    }
  }

  lemma SortBySizeLength(s: seq<FileNode>)
    ensures |SortBySize(s)| == |s|
  {
    SortBySizeIsStableSort(s);
    assert |multiset(SortBySize(s))| == |SortBySize(s)|;
  }

  lemma HeadWithSize(s: seq<FileNode>)
    requires s != []
    ensures WithSize(s, s[0].size) != [] && WithSize(s, s[0].size)[0] == s[0]
  {
  }

  /** Two sequences, each sorted largest first, that agree on the order of
      the nodes of every size, are equal. So every stable descending sort
      gives the same result as `SortBySize`. */
  lemma {:induction false} StableSortUnique(a: seq<FileNode>, b: seq<FileNode>)
    requires Descending(a) && Descending(b)
    requires forall k: nat :: WithSize(a, k) == WithSize(b, k)
    ensures a == b
  {
    if a != [] {
      HeadWithSize(a);
      assert WithSize(b, a[0].size) == WithSize(a, a[0].size);
      assert b != [];
    }
    if b != [] {
      HeadWithSize(b);
      assert WithSize(a, b[0].size) == WithSize(b, b[0].size);
      assert a != [];
    }
    if a != [] {
      var m, n := a[0].size, b[0].size;
      DescendingTail(a);
      DescendingTail(b);
      HeadWithSize(a);
      HeadWithSize(b);
      WithSizeElements(a, n);
      WithSizeElements(b, m);
      assert WithSize(a, n)[0] in a;
      assert WithSize(b, m)[0] in b;
      assert n <= m && m <= n;
      assert a[0] == b[0];
      forall k: nat
        ensures WithSize(a[1..], k) == WithSize(b[1..], k)
      {
        var p := if a[0].size == k then [a[0]] else [];
        assert WithSize(a, k) == p + WithSize(a[1..], k);
        assert WithSize(b, k) == p + WithSize(b[1..], k);
        assert WithSize(a[1..], k) == WithSize(a, k)[|p|..];
      }
      StableSortUnique(a[1..], b[1..]);
      assert a == [a[0]] + a[1..] && b == [b[0]] + b[1..];
    }
  }

  /** Sorting a sequence that is already sorted leaves it as it is. */
  lemma SortBySizeOfDescending(s: seq<FileNode>)
    requires Descending(s)
    ensures SortBySize(s) == s
  {
    SortBySizeIsStableSort(s);
    StableSortUnique(SortBySize(s), s);
  }

  lemma {:induction false} InsertBySizeMeasures(x: FileNode, s: seq<FileNode>)
    ensures SumSizes(InsertBySize(x, s)) == x.size + SumSizes(s)
    ensures NodeCountAll(InsertBySize(x, s)) == NodeCount(x) + NodeCountAll(s)
    ensures TreePathsAll(InsertBySize(x, s)) == TreePaths(x) + TreePathsAll(s)
  {
    var r := InsertBySize(x, s);
    if s == [] || x.size >= s[0].size {
      assert r[1..] == s;
    } else {
      InsertBySizeMeasures(x, s[1..]);
      assert r[1..] == InsertBySize(x, s[1..]);
    }
  }

  /** Reordering children changes neither their total size, nor how many
      nodes they hold, nor which paths they hold. */
  lemma {:induction false} SortBySizeMeasures(s: seq<FileNode>)
    ensures SumSizes(SortBySize(s)) == SumSizes(s)
    ensures NodeCountAll(SortBySize(s)) == NodeCountAll(s)
    ensures TreePathsAll(SortBySize(s)) == TreePathsAll(s)
  {
    if s != [] {
      SortBySizeMeasures(s[1..]);
      InsertBySizeMeasures(s[0], SortBySize(s[1..]));
    }
  }
}
