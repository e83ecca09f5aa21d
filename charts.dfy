/**
  The entries of the usage chart of a directory (`show_charts` in
  src/ui/charts.rs, without the drawing): the directory's children,
  largest first, the first eight of them named, each with the next colour
  of an eight-colour palette, and a grey "Others" entry holding whatever
  size the named entries leave unaccounted. The window of src/app.rs
  does not call `show_charts`.
*/
module Charts {
  import opened Wrappers
  import opened FileNodes

  /** How many children the chart names. */
  const TopN := 8

  /** An RGB colour. */
  datatype Rgb = Rgb(r: nat, g: nat, b: nat)

  /** The chart's palette: cornflower blue, coral, medium sea green, gold,
      blue violet, hot pink, dark turquoise, chocolate. */
  const Colors: seq<Rgb> := [
    Rgb(100, 149, 237), Rgb(255, 127, 80), Rgb(60, 179, 113), Rgb(255, 215, 0),
    Rgb(138, 43, 226), Rgb(255, 105, 180), Rgb(0, 206, 209), Rgb(210, 105, 30)]

  /** The colour of the "Others" entry, `Color32::from_gray(100)`. */
  const OthersColor := Rgb(100, 100, 100)

  const OthersName := "Others"

  /** One slice of the chart (its share of the total, a float, is left out). */
  datatype ChartEntry = ChartEntry(name: string, size: nat, color: Rgb)

  /** `u64::saturating_sub`: the difference, or 0 when it would be negative. */
  function SaturatingSub(a: nat, b: nat): nat
  {
    if a >= b then a - b else 0
  }

  /** The children the chart names: the largest, at most `TopN` of them. */
  function TopChildren(node: FileNode): seq<FileNode>
  {
    var sorted := SortBySize(node.children);
    sorted[..Min(TopN, |sorted|)]
  }

  /** The named entries for `top`, the `i`-th with colour `i % 8`. */
  function Named(top: seq<FileNode>): seq<ChartEntry>
  {
    if top == [] then [] else Named(top[..|top| - 1]) + [NamedEntry(top, |top| - 1)]
  }

  function NamedEntry(top: seq<FileNode>, i: nat): ChartEntry
    requires i < |top|
  {
    ChartEntry(top[i].name, top[i].size, Colors[i % |Colors|])
  }

  /** The entries `show_charts` draws for `node`: none when the node is
      empty or has no children; otherwise the named entries, then an
      "Others" entry for a positive remainder. */
  function ChartEntries(node: FileNode): seq<ChartEntry>
  {
    if node.size == 0 || node.children == [] then []
    else
      var top := TopChildren(node);
      var other := SaturatingSub(node.size, SumSizes(top));
      Named(top) + (if other > 0 then [ChartEntry(OthersName, other, OthersColor)] else [])
  }

  /** Total size of a sequence of entries. */
  function EntrySizes(es: seq<ChartEntry>): nat
  {
    if es == [] then 0 else EntrySizes(es[..|es| - 1]) + es[|es| - 1].size
  }

  /** The computation of the entries in `show_charts`: sorts the
      children, names the first eight while adding up their sizes, and
      appends the remainder. */
  method ShowCharts(node: FileNode) returns (entries: seq<ChartEntry>)
    ensures entries == ChartEntries(node)
  {
    if node.size == 0 || |node.children| == 0 {
      return [];
    }
    var children := SortBySize(node.children);
    entries := [];
    var accountedSize := 0;
    var i := 0;
    while i < |children| && i < TopN
      invariant 0 <= i <= Min(TopN, |children|)
      invariant entries == Named(children[..i])
      invariant accountedSize == SumSizes(children[..i])
    {
      NamedSnoc(children, i);
      entries := entries + [ChartEntry(children[i].name, children[i].size, Colors[i % |Colors|])];
      accountedSize := accountedSize + children[i].size;
      i := i + 1;
    }
    ghost var top := TopChildren(node);
    assert children[..i] == top;
    var otherSize := if node.size >= accountedSize then node.size - accountedSize else 0;
    if otherSize > 0 {
      entries := entries + [ChartEntry(OthersName, otherSize, OthersColor)];
    }
  }

  /** One more named entry. */
  lemma NamedSnoc(s: seq<FileNode>, i: nat)
    requires i < |s|
    ensures Named(s[..i + 1]) == Named(s[..i]) + [ChartEntry(s[i].name, s[i].size, Colors[i % |Colors|])]
    ensures SumSizes(s[..i + 1]) == SumSizes(s[..i]) + s[i].size
  {
    var t := s[..i + 1];
    assert t[..|t| - 1] == s[..i];
    assert t == s[..i] + [s[i]];
    SumSizesAppend(s[..i], [s[i]]);
  }

  lemma {:induction false} NamedAt(top: seq<FileNode>)
    ensures |Named(top)| == |top|
    ensures forall i :: 0 <= i < |top| ==> Named(top)[i] == NamedEntry(top, i)
    decreases |top|
  {
    if top != [] {
      var front := top[..|top| - 1];
      NamedAt(front);
      forall i | 0 <= i < |front|
        ensures NamedEntry(front, i) == NamedEntry(top, i)
      {
      }
    }
  }

  lemma {:induction false} NamedSizes(top: seq<FileNode>)
    ensures EntrySizes(Named(top)) == SumSizes(top)
    decreases |top|
  {
    if top != [] {
      var front, last := top[..|top| - 1], top[|top| - 1];
      NamedSizes(front);
      var es := Named(top);
      assert es[..|es| - 1] == Named(front);
      assert top == front + [last];
      SumSizesAppend(front, [last]);
    }
  }

  lemma EntrySizesSnoc(es: seq<ChartEntry>, e: ChartEntry)
    ensures EntrySizes(es + [e]) == EntrySizes(es) + e.size
  {
    assert (es + [e])[..|es|] == es;
  }

  /** The chart is empty exactly when the node has size 0 or no children. */
  lemma ChartEmpty(node: FileNode)
    ensures ChartEntries(node) == [] <==> node.size == 0 || node.children == []
  {
    if node.size != 0 && node.children != [] {
      SortBySizeLength(node.children);
      NamedAt(TopChildren(node));
    }
  }

  /** The named entries are the largest children, largest first, at most
      eight of them, each with its child's name and size and colour
      `Colors[i % 8]`; no child left unnamed is larger than a named one. */
  lemma ChartNamesLargest(node: FileNode)
    requires node.size > 0 && node.children != []
    ensures var es, top, sorted := ChartEntries(node), TopChildren(node), SortBySize(node.children);
      && |top| == Min(TopN, |node.children|)
      && |top| <= |es| <= |top| + 1
      && (forall i :: 0 <= i < |top| ==>
            es[i].name == top[i].name && es[i].size == top[i].size && es[i].color == Colors[i % 8])
      && (forall i, j :: 0 <= i < j < |top| ==> es[i].size >= es[j].size)
      && multiset(top) + multiset(sorted[|top|..]) == multiset(node.children)
      && (forall i, j :: 0 <= i < |top| <= j < |sorted| ==> sorted[j].size <= es[i].size)
  {
    var sorted := SortBySize(node.children);
    SortBySizeIsStableSort(node.children);
    SortBySizeLength(node.children);
    var top := TopChildren(node);
    NamedAt(top);
    assert sorted == top + sorted[|top|..];
  }

  /** An "Others" entry is appended exactly when the node is larger than the
      named children together, and it holds the difference. */
  lemma ChartOthers(node: FileNode)
    requires node.size > 0 && node.children != []
    ensures var es, accounted := ChartEntries(node), SumSizes(TopChildren(node));
      && (|es| == |TopChildren(node)| + 1 <==> node.size > accounted)
      && (node.size > accounted ==> es[|es| - 1] == ChartEntry(OthersName, node.size - accounted, OthersColor))
  {
    NamedAt(TopChildren(node));
  }

  /** The slices add up to the node's size, unless the named children alone
      are larger, in which case they add up to the named children's total. */
  lemma ChartTotal(node: FileNode)
    requires node.size > 0 && node.children != []
    ensures var accounted := SumSizes(TopChildren(node));
      EntrySizes(ChartEntries(node)) == if accounted <= node.size then node.size else accounted
  {
    var top := TopChildren(node);
    NamedSizes(top);
    var accounted := SumSizes(top);
    if node.size > accounted {
      EntrySizesSnoc(Named(top), ChartEntry(OthersName, node.size - accounted, OthersColor));
    } else {
      assert ChartEntries(node) == Named(top);
    }
  }

  /** For a directory the scanner built, the named children never outweigh
      it, so the slices add up to its size. */
  lemma ChartOfScannedDirectory(node: FileNode)
    requires WellFormed(node) && node.isDir && node.size > 0
    ensures node.children != []
    ensures EntrySizes(ChartEntries(node)) == node.size
  {
    var sorted := SortBySize(node.children);
    SortBySizeMeasures(node.children);
    SumSizesPrefix(sorted, Min(TopN, |sorted|));
    ChartTotal(node);
  }

  /** For a directory the scanner built, "Others" holds exactly the
      children beyond the first eight. */
  lemma ScannedOthers(node: FileNode)
    requires WellFormed(node) && node.isDir
    ensures var sorted := SortBySize(node.children);
      SaturatingSub(node.size, SumSizes(TopChildren(node))) == SumSizes(sorted[Min(TopN, |sorted|)..])
  {
    var sorted := SortBySize(node.children);
    var top := TopChildren(node);
    SortBySizeMeasures(node.children);
    assert sorted == top + sorted[|top|..];
    SumSizesAppend(top, sorted[|top|..]);
  }
}
