/**
  The search filter and the selection of the tree view (`TreeView` in
  src/ui/tree.rs). A node matches a query when its lower-cased name
  contains the lower-cased query, or when one of its descendants does;
  the view hides a row whose own name does not match unless it is a
  directory with a matching child.
*/
module Tree {
  import opened Wrappers
  import opened FileNodes

  /** Lower-casing of one character, for the ASCII letters. */
  function LowerChar(c: char): char
  {
    if 'A' <= c <= 'Z' then (c as int + 32) as char else c
  }

  /** `to_lowercase`, restricted to ASCII letters. */
  function Lower(s: string): string
  {
    if s == [] then [] else [LowerChar(s[0])] + Lower(s[1..])
  }

  /** `t` occurs in `s` starting at index `i`. */
  predicate OccursAt(s: string, t: string, i: nat)
  {
    i + |t| <= |s| && s[i..i + |t|] == t
  }

  /** `str::contains`: whether `t` occurs somewhere in `s`. */
  function Contains(s: string, t: string): bool
    decreases |s|
  {
    t <= s || (s != [] && Contains(s[1..], t))
  }

  /** The name test of `matches_search` and the filter: case-insensitive
      substring search. */
  predicate NameMatches(name: string, query: string)
  {
    Contains(Lower(name), Lower(query))
  }

  /** `matches_search`: the node's name matches, or some child matches. */
  predicate MatchesSearch(query: string, n: FileNode)
    decreases n, 1
  {
    NameMatches(n.name, query) || AnyMatches(query, n.children)
  }

  /** The loop over the children in `matches_search` and in the filter:
      whether some child matches, stopping at the first that does. */
  predicate AnyMatches(query: string, ns: seq<FileNode>)
    decreases ns, 0
  {
    ns != [] && (MatchesSearch(query, ns[0]) || AnyMatches(query, ns[1..]))
  }

  /** The filter at the top of `recursive_tree`: whether a node's row is
      drawn. */
  predicate Shown(query: string, n: FileNode)
  {
    if query != [] && !NameMatches(n.name, query) then n.isDir && AnyMatches(query, n.children) else true
  }

  /** The nodes of a tree in pre-order. */
  function Nodes(n: FileNode): seq<FileNode>
    decreases n, 1
  {
    [n] + NodesAll(n.children)
  }

  function NodesAll(ns: seq<FileNode>): seq<FileNode>
    decreases ns, 0
  {
    if ns == [] then [] else Nodes(ns[0]) + NodesAll(ns[1..])
  }

  /** Lower-casing maps each character on its own. */
  lemma {:induction false} LowerAt(s: string)
    ensures |Lower(s)| == |s|
    ensures forall i :: 0 <= i < |s| ==> Lower(s)[i] == LowerChar(s[i])
  {
    if s != [] {
      LowerAt(s[1..]);
    }
  }

  /** Lower-casing twice is lower-casing once, so the name test does not
      care whether either side was lower-cased already. */
  lemma LowerIdempotent(s: string)
    ensures Lower(Lower(s)) == Lower(s)
    ensures NameMatches(Lower(s), s) && NameMatches(s, Lower(s))
  {
    LowerAt(s);
    LowerAt(Lower(s));
    ContainsItself(Lower(s));
  }

  lemma ContainsItself(s: string)
    ensures Contains(s, s)
  {
  }

  /** `Contains` is substring search: it holds exactly when `t` occurs in
      `s` at some index. */
  lemma ContainsOccurs(s: string, t: string)
    ensures Contains(s, t) <==> exists i: nat :: i <= |s| && OccursAt(s, t, i)
  {
    if Contains(s, t) {
      var i := ContainsSomewhere(s, t);
    }
    forall i: nat | i <= |s| && OccursAt(s, t, i)
      ensures Contains(s, t)
    {
      OccursContains(s, t, i);
    }
  }

  lemma {:induction false} ContainsSomewhere(s: string, t: string) returns (i: nat)
    requires Contains(s, t)
    ensures i <= |s| && OccursAt(s, t, i)
    decreases |s|
  {
    if t <= s {
      i := 0;
      assert s[0..|t|] == s[..|t|];
    } else {
      var j := ContainsSomewhere(s[1..], t);
      assert s[j + 1..j + 1 + |t|] == s[1..][j..j + |t|];
      i := j + 1;
    }
  }

  lemma {:induction false} OccursContains(s: string, t: string, i: nat)
    requires OccursAt(s, t, i)
    ensures Contains(s, t)
    decreases i
  {
    if i == 0 {
      assert s[..|t|] == s[0..|t|];
    } else {
      assert s[1..][i - 1..i - 1 + |t|] == s[i..i + |t|];
      OccursContains(s[1..], t, i - 1);
    }
  }

  /** Every string contains the empty query. */
  lemma ContainsEmpty(s: string)
    ensures Contains(s, [])
  {
  }

  /** The early-returning loop over the children finds a match exactly
      when some child matches. */
  lemma {:induction false} AnyMatchesSome(query: string, ns: seq<FileNode>)
    ensures AnyMatches(query, ns) <==> exists i :: 0 <= i < |ns| && MatchesSearch(query, ns[i])
  {
    if ns != [] {
      AnyMatchesSome(query, ns[1..]);
      if AnyMatches(query, ns[1..]) {
        var i :| 0 <= i < |ns[1..]| && MatchesSearch(query, ns[1..][i]);
        assert ns[i + 1] == ns[1..][i];
      }
      forall i | 0 <= i < |ns| && MatchesSearch(query, ns[i])
        ensures AnyMatches(query, ns)
      {
        if i > 0 {
          assert ns[1..][i - 1] == ns[i];
        }
      }
    }
  }

  /** `matches_search` holds exactly when some node of the subtree, the
      node itself or a descendant, has a matching name. */
  lemma {:induction false} MatchesSomeNode(query: string, n: FileNode)
    ensures MatchesSearch(query, n) ==> exists k :: 0 <= k < |Nodes(n)| && NameMatches(Nodes(n)[k].name, query)
    ensures (exists k :: 0 <= k < |Nodes(n)| && NameMatches(Nodes(n)[k].name, query)) ==> MatchesSearch(query, n)
    decreases n, 1
  {
    var ns := Nodes(n);
    MatchesSomeNodeAll(query, n.children);
    var rest := NodesAll(n.children);
    assert ns == [n] + rest;
    assert MatchesSearch(query, n) <==> NameMatches(n.name, query) || AnyMatches(query, n.children);
    if NameMatches(n.name, query) {
      assert NameMatches(ns[0].name, query);
    } else if AnyMatches(query, n.children) {
      var k :| 0 <= k < |rest| && NameMatches(rest[k].name, query);
      assert ns[k + 1] == rest[k];
    }
    if exists k :: 0 <= k < |ns| && NameMatches(ns[k].name, query) {
      var k :| 0 <= k < |ns| && NameMatches(ns[k].name, query);
      if k > 0 {
        assert ns[k] == rest[k - 1];
        assert NameMatches(rest[k - 1].name, query);
        assert AnyMatches(query, n.children);
      }
    }
  }

  lemma {:induction false} MatchesSomeNodeAll(query: string, ns: seq<FileNode>)
    ensures AnyMatches(query, ns) <==> exists k :: 0 <= k < |NodesAll(ns)| && NameMatches(NodesAll(ns)[k].name, query)
    decreases ns, 0
  {
    if ns != [] {
      MatchesSomeNode(query, ns[0]);
      MatchesSomeNodeAll(query, ns[1..]);
      var a, b := Nodes(ns[0]), NodesAll(ns[1..]);
      assert NodesAll(ns) == a + b;
      forall k | 0 <= k < |a| + |b|
        ensures (a + b)[k] == if k < |a| then a[k] else b[k - |a|]
      {
      }
      if exists k :: 0 <= k < |a + b| && NameMatches((a + b)[k].name, query) {
        var k :| 0 <= k < |a + b| && NameMatches((a + b)[k].name, query);
        if k < |a| {
          assert NameMatches(a[k].name, query);
        } else {
          assert NameMatches(b[k - |a|].name, query);
        }
      }
      if exists k :: 0 <= k < |b| && NameMatches(b[k].name, query) {
        var k :| 0 <= k < |b| && NameMatches(b[k].name, query);
        assert (a + b)[|a| + k] == b[k];
      }
    }
  }

  /** With an empty query every row is drawn, and every node matches. */
  lemma EmptyQueryShowsAll(n: FileNode)
    ensures Shown([], n) && MatchesSearch([], n)
  {
    assert Lower([]) == [];
    ContainsEmpty(Lower(n.name));
  }

  /** A row whose own name matches is drawn. */
  lemma NameMatchShown(query: string, n: FileNode)
    requires NameMatches(n.name, query)
    ensures Shown(query, n) && MatchesSearch(query, n)
  {
  }

  /** A non-directory whose name does not match a non-empty query is hidden. */
  lemma UnmatchedFileHidden(query: string, n: FileNode)
    requires query != [] && !n.isDir && !NameMatches(n.name, query)
    ensures !Shown(query, n)
  {
  }

  /** A directory whose name does not match a non-empty query is drawn
      exactly when one of its children matches. */
  lemma UnmatchedDirShown(query: string, n: FileNode)
    requires query != [] && n.isDir && !NameMatches(n.name, query)
    ensures Shown(query, n) <==> exists i :: 0 <= i < |n.children| && MatchesSearch(query, n.children[i])
  {
    AnyMatchesSome(query, n.children);
  }

  /** For a directory, and for any node without children, being drawn and
      matching are the same; so in every tree the scanner builds, a row is
      drawn exactly when its subtree holds a matching name. */
  lemma ShownIffMatches(query: string, n: FileNode)
    requires n.isDir || n.children == []
    ensures Shown(query, n) <==> (query == [] || MatchesSearch(query, n))
  {
  }

  lemma ShownInScannedTree(query: string, n: FileNode)
    requires WellFormed(n) && query != []
    ensures Shown(query, n) <==> exists k :: 0 <= k < |Nodes(n)| && NameMatches(Nodes(n)[k].name, query)
  {
    ShownIffMatches(query, n);
    MatchesSomeNode(query, n);
  }

  /** What a row's context menu can ask for. */
  datatype TreeAction = Delete(path: string) | Open(path: string)

  /** The state of the tree view. */
  class TreeView {
    var selectedPath: Option<string>
    var searchQuery: string

    /** `TreeView::new`. */
    constructor ()
      ensures selectedPath == None && searchQuery == []
    {
      selectedPath := None;
      searchQuery := [];
    }

    /** `handle_response`: the context menu's Open and Delete buttons set
        the pending action (Delete last, so it wins when both fire); a
        click on the row selects the node's path. Nothing else changes. */
    method HandleResponse(node: FileNode, openClicked: bool, deleteClicked: bool, clicked: bool, action: Option<TreeAction>)
      returns (newAction: Option<TreeAction>)
      modifies this
      ensures newAction == if deleteClicked then Some(Delete(node.path)) else if openClicked then Some(Open(node.path)) else action
      ensures selectedPath == if clicked then Some(node.path) else old(selectedPath)
      ensures searchQuery == old(searchQuery)
    {
      newAction := action;
      if openClicked {
        newAction := Some(Open(node.path));
      }
      if deleteClicked {
        newAction := Some(Delete(node.path));
      }
      if clicked {
        selectedPath := Some(node.path);
      }
    }
  }
}
