/** `print_tree` and the root loop of the main block: the indented folder tree. */
module TreeRenderer {
  import opened DriveRecords
  import StringOrder

  /** Ascending by name. */
  predicate SortedByName(s: seq<Node>)
  {
    forall i, j :: 0 <= i < j < |s| ==> StringOrder.LessEq(s[i].name, s[j].name)
  }

  /** How often `x` occurs in `s`: the multiplicity of `x` in `multiset(s)`. */
  function Occurrences(s: seq<Node>, x: Node): nat
  {
    CountUpTo(s, |s|, x)
  }

  /** How often `x` occurs among the first `n` elements of `s`. */
  function CountUpTo(s: seq<Node>, n: nat, x: Node): nat
    requires n <= |s|
  {
    if n == 0 then 0 else CountUpTo(s, n - 1, x) + (if s[n - 1] == x then 1 else 0)
  }

  /** `Occurrences` is the multiplicity in the multiset of the sequence. */
  lemma OccurrencesMultiplicity(s: seq<Node>, x: Node)
    ensures Occurrences(s, x) == multiset(s)[x]
  {
    CountUpToMultiplicity(s, |s|, x);
    assert s[..|s|] == s;
  }

  lemma {:induction false} CountUpToMultiplicity(s: seq<Node>, n: nat, x: Node)
    requires n <= |s|
    ensures CountUpTo(s, n, x) == multiset(s[..n])[x]
  {
    if n > 0 {
      CountUpToMultiplicity(s, n - 1, x);
      assert s[..n] == s[..n - 1] + [s[n - 1]];
    } else {
      assert s[..n] == [];
    }
  }

  /** An element occurs among the first `n` exactly when it is at one of their positions. */
  lemma {:induction false} CountUpToPositive(s: seq<Node>, n: nat, x: Node)
    requires n <= |s|
    ensures CountUpTo(s, n, x) > 0 <==> exists j :: 0 <= j < n && s[j] == x
  {
    if n > 0 {
      CountUpToPositive(s, n - 1, x);
    }
  }

  lemma {:induction false} CountUpToAppendFront(a: seq<Node>, b: seq<Node>, j: nat, x: Node)
    requires j <= |a|
    ensures CountUpTo(a + b, j, x) == CountUpTo(a, j, x)
  {
    if j > 0 {
      CountUpToAppendFront(a, b, j - 1, x);
    }
  }

  lemma {:induction false} CountUpToAppendBack(a: seq<Node>, b: seq<Node>, k: nat, x: Node)
    requires k <= |b|
    ensures CountUpTo(a + b, |a| + k, x) == Occurrences(a, x) + CountUpTo(b, k, x)
  {
    if k > 0 {
      CountUpToAppendBack(a, b, k - 1, x);
    } else {
      CountUpToAppendFront(a, b, |a|, x);
    }
  }

  lemma OccurrencesSingleton(y: Node, x: Node)
    ensures Occurrences([y], x) == if y == x then 1 else 0
  {
    assert CountUpTo([y], 0, x) == 0;
  }

  /** The occurrences in a concatenation add up. */
  lemma OccurrencesAppend(a: seq<Node>, b: seq<Node>, x: Node)
    ensures Occurrences(a + b, x) == Occurrences(a, x) + Occurrences(b, x)
  {
    CountUpToAppendBack(a, b, |b|, x);
  }

  /** Where `x` goes among the first `k` elements: after the last one whose name is not
      greater than its own. */
  function InsertPosition(x: Node, s: seq<Node>, k: nat): (p: nat)
    requires k <= |s|
    ensures p <= k
  {
    if k == 0 then 0
    else if StringOrder.Less(x.name, s[k - 1].name) then InsertPosition(x, s, k - 1)
    else k
  }

  /** Places `x` after every element whose name is not greater than its own. */
  function InsertByName(x: Node, s: seq<Node>): seq<Node>
  {
    InsertAt(s, InsertPosition(x, s, |s|), x)
  }

  /** `s` with `x` placed at position `p`. */
  function InsertAt(s: seq<Node>, p: nat, x: Node): (r: seq<Node>)
    requires p <= |s|
    ensures |r| == |s| + 1
    ensures forall i :: 0 <= i < |r| ==> r[i] == if i < p then s[i] else if i == p then x else s[i - 1]
  {
    seq(|s| + 1, i requires 0 <= i <= |s| => if i < p then s[i] else if i == p then x else s[i - 1])
  }

  /** The records of `s` sorted by name, as an insertion sort: each record is placed
      after the already placed records whose names are not greater than its own. */
  function SortByName(s: seq<Node>): seq<Node>
  {
    SortPrefix(s, |s|)
  }

  /** The first `n` elements of `s`, sorted by inserting one element after another. */
  function SortPrefix(s: seq<Node>, n: nat): seq<Node>
    requires n <= |s|
  {
    if n == 0 then [] else InsertByName(s[n - 1], SortPrefix(s, n - 1))
  }

  /** Inserting adds one occurrence of `x` and keeps every other element. */
  lemma InsertPermutes(x: Node, s: seq<Node>, y: Node)
    ensures Occurrences(InsertByName(x, s), y) == Occurrences(s, y) + (if x == y then 1 else 0)
  {
    var p := InsertPosition(x, s, |s|);
    InsertAtCount(s, p, x, y, |s| + 1);
  }

  lemma {:induction false} InsertAtCount(s: seq<Node>, p: nat, x: Node, y: Node, k: nat)
    requires p <= |s| && k <= |s| + 1
    ensures CountUpTo(InsertAt(s, p, x), k, y)
      == if k <= p then CountUpTo(s, k, y) else CountUpTo(s, k - 1, y) + (if x == y then 1 else 0)
  {
    if k > 0 {
      InsertAtCount(s, p, x, y, k - 1);
    }
  }

  /** In a sorted sequence, the elements before the insert position are not greater
      than `x`, and those from it on among the first `k` are greater. */
  lemma {:induction false} InsertPositionSplits(x: Node, s: seq<Node>, k: nat)
    requires k <= |s|
    requires SortedByName(s)
    ensures var p := InsertPosition(x, s, k);
      && (forall i :: 0 <= i < p ==> StringOrder.LessEq(s[i].name, x.name))
      && (forall i :: p <= i < k ==> StringOrder.Less(x.name, s[i].name))
  {
    if k > 0 {
      if StringOrder.Less(x.name, s[k - 1].name) {
        InsertPositionSplits(x, s, k - 1);
      } else {
        StringOrder.LessTotal(x.name, s[k - 1].name);
        forall i | 0 <= i < k ensures StringOrder.LessEq(s[i].name, x.name) {
          if i < k - 1 {
            StringOrder.LessEqTransitive(s[i].name, s[k - 1].name, x.name);
          }
        }
      }
    }
  }

  lemma InsertSorted(x: Node, s: seq<Node>)
    requires SortedByName(s)
    ensures SortedByName(InsertByName(x, s))
  {
    var p := InsertPosition(x, s, |s|);
    InsertPositionSplits(x, s, |s|);
    var r := InsertByName(x, s);
    assert |r| == |s| + 1;
    assert forall i :: 0 <= i < p ==> r[i] == s[i];
    assert r[p] == x;
    assert forall i :: p < i < |r| ==> r[i] == s[i - 1];
    forall i, j | 0 <= i < j < |r| ensures StringOrder.LessEq(r[i].name, r[j].name) {
      if j == p {
        assert r[i] == s[i];
      } else if i == p {
        assert r[j] == s[j - 1];
      } else if i < p {
        assert r[i] == s[i];
        if j < p {
          assert r[j] == s[j];
        } else {
          assert r[j] == s[j - 1];
        }
      } else {
        assert r[i] == s[i - 1] && r[j] == s[j - 1];
      }
    }
  }

  /** The sorted children are a permutation of the children: every record occurs in
      both as often. */
  lemma SortByNamePermutes(s: seq<Node>, x: Node)
    ensures Occurrences(SortByName(s), x) == Occurrences(s, x)
  {
    SortPrefixCount(s, |s|, x);
  }

  lemma {:induction false} SortPrefixCount(s: seq<Node>, n: nat, x: Node)
    requires n <= |s|
    ensures Occurrences(SortPrefix(s, n), x) == CountUpTo(s, n, x)
  {
    if n > 0 {
      SortPrefixCount(s, n - 1, x);
      InsertPermutes(s[n - 1], SortPrefix(s, n - 1), x);
    }
  }

  /** The sorted children are in ascending name order. */
  lemma SortByNameSorted(s: seq<Node>)
    ensures SortedByName(SortByName(s))
  {
    SortPrefixSorted(s, |s|);
  }

  lemma {:induction false} SortPrefixSorted(s: seq<Node>, n: nat)
    requires n <= |s|
    ensures SortedByName(SortPrefix(s, n))
  {
    if n > 0 {
      SortPrefixSorted(s, n - 1);
      InsertSorted(s[n - 1], SortPrefix(s, n - 1));
    }
  }

  /** The elements of `s` that satisfy `keep`, in order. */
  function Filter(s: seq<Node>, keep: Node -> bool): (r: seq<Node>)
    ensures |r| <= |s|
    ensures forall i :: 0 <= i < |r| ==> keep(r[i])
  {
    FilterPrefix(s, |s|, keep)
  }

  /** The elements among the first `n` of `s` that satisfy `keep`, in order. */
  function FilterPrefix(s: seq<Node>, n: nat, keep: Node -> bool): (r: seq<Node>)
    requires n <= |s|
    ensures |r| <= n
    ensures forall i :: 0 <= i < |r| ==> keep(r[i])
  {
    if n == 0 then []
    else FilterPrefix(s, n - 1, keep) + (if keep(s[n - 1]) then [s[n - 1]] else [])
  }

  /** In a sequence sorted by name, what is kept from the first `n` elements is not
      greater than any later element. */
  lemma {:induction false} FilterPrefixBelow(s: seq<Node>, n: nat, keep: Node -> bool, m: nat)
    requires n <= m < |s|
    requires SortedByName(s)
    ensures forall i :: 0 <= i < |FilterPrefix(s, n, keep)| ==>
      StringOrder.LessEq(FilterPrefix(s, n, keep)[i].name, s[m].name)
  {
    if n > 0 {
      FilterPrefixBelow(s, n - 1, keep, m);
      var front, r := FilterPrefix(s, n - 1, keep), FilterPrefix(s, n, keep);
      forall i | 0 <= i < |r| ensures StringOrder.LessEq(r[i].name, s[m].name) {
        if i < |front| {
          assert r[i] == front[i];
        } else {
          assert r[i] == s[n - 1];
        }
      }
    }
  }

  /** Filtering keeps every element that passes as often as it occurs, and no other. */
  lemma FilterCount(s: seq<Node>, keep: Node -> bool, x: Node)
    ensures Occurrences(Filter(s, keep), x) == if keep(x) then Occurrences(s, x) else 0
  {
    FilterPrefixCount(s, |s|, keep, x);
  }

  lemma {:induction false} FilterPrefixCount(s: seq<Node>, n: nat, keep: Node -> bool, x: Node)
    requires n <= |s|
    ensures Occurrences(FilterPrefix(s, n, keep), x) == if keep(x) then CountUpTo(s, n, x) else 0
  {
    if n > 0 {
      FilterPrefixCount(s, n - 1, keep, x);
      if keep(s[n - 1]) {
        OccurrencesAppend(FilterPrefix(s, n - 1, keep), [s[n - 1]], x);
        OccurrencesSingleton(s[n - 1], x);
      } else {
        assert FilterPrefix(s, n, keep) == FilterPrefix(s, n - 1, keep) + [] == FilterPrefix(s, n - 1, keep);
      }
    }
  }

  /** Filtering a sequence sorted by name leaves it sorted. */
  lemma FilterSorted(s: seq<Node>, keep: Node -> bool)
    requires SortedByName(s)
    ensures SortedByName(Filter(s, keep))
  {
    FilterPrefixSorted(s, |s|, keep);
  }

  lemma {:induction false} FilterPrefixSorted(s: seq<Node>, n: nat, keep: Node -> bool)
    requires n <= |s|
    requires SortedByName(s)
    ensures SortedByName(FilterPrefix(s, n, keep))
  {
    if n > 0 {
      FilterPrefixSorted(s, n - 1, keep);
      FilterPrefixBelow(s, n - 1, keep, n - 1);
      var front, r := FilterPrefix(s, n - 1, keep), FilterPrefix(s, n, keep);
      forall i, j | 0 <= i < j < |r| ensures StringOrder.LessEq(r[i].name, r[j].name) {
        if j < |front| {
          assert r[i] == front[i] && r[j] == front[j];
        } else {
          assert i < |front| && r[i] == front[i] && r[j] == s[n - 1];
        }
      }
    }
  }

  /** Python's `list`, as far as `out_lines` uses it: it is only appended to. */
  class LineBuffer {
    var lines: seq<string>

    constructor ()
      ensures lines == []
    {
      lines := [];
    }

    method Append(line: string)
      modifies this
      ensures lines == old(lines) + [line]
    {
      lines := lines + [line];
    }
  }

  /** Appending a group of lines after the lines printed so far. */
  lemma AppendGroup(head: seq<string>, printed: seq<string>, group: seq<string>)
    ensures head + printed + group == head + (printed + group)
  {
  }

  /** Every folder in `cs` ranks below `bound`. */
  ghost predicate FoldersBelow(cs: seq<Node>, height: string -> nat, bound: nat)
  {
    forall i :: 0 <= i < |cs| && IsFolder(cs[i]) ==> height(cs[i].id) < bound
  }

  /** The sorted children of `node` whose subtrees `print_tree` prints all rank below it. */
  lemma SortedChildrenDescend(children: map<string, seq<Node>>, node: Node, height: string -> nat)
    requires FolderEdgesDescend(children, height)
    ensures FoldersBelow(SortByName(ChildrenOf(children, node.id)), height, height(node.id))
  {
    var cs := ChildrenOf(children, node.id);
    var sorted := SortByName(cs);
    forall i | 0 <= i < |sorted| && IsFolder(sorted[i]) ensures height(sorted[i].id) < height(node.id) {
      SortByNamePermutes(cs, sorted[i]);
      CountUpToPositive(sorted, |sorted|, sorted[i]);
      CountUpToPositive(cs, |cs|, sorted[i]);
      var j :| 0 <= j < |cs| && cs[j] == sorted[i];
    }
  }

  /** The lines `print_tree` appends for `node` printed from `prefix`. */
  ghost function TreeLines(node: Node, children: map<string, seq<Node>>, prefix: string, height: string -> nat): seq<string>
    requires FolderEdgesDescend(children, height)
    decreases height(node.id), 1, 0
  {
    var cs := SortByName(ChildrenOf(children, node.id));
    SortedChildrenDescend(children, node, height);
    [prefix + node.name + "/"] + ForestLines(cs, |cs|, children, prefix + "  ", height, height(node.id))
  }

  /** The lines of the subtrees of the folders among `cs[..n]`, one after the other;
      other records are skipped. */
  ghost function ForestLines(cs: seq<Node>, n: nat, children: map<string, seq<Node>>, prefix: string, height: string -> nat, bound: nat): seq<string>
    requires FolderEdgesDescend(children, height)
    requires n <= |cs|
    requires FoldersBelow(cs, height, bound)
    decreases bound, 0, n
  {
    if n == 0 then []
    else
      ForestLines(cs, n - 1, children, prefix, height, bound)
        + (if IsFolder(cs[n - 1]) then TreeLines(cs[n - 1], children, prefix, height) else [])
  }

  /** `print_tree`: appends the line of `node`, then the subtrees of its folder
      children in name order, each indented by two more spaces. */
  method PrintTree(node: Node, children: map<string, seq<Node>>, prefix: string, out: LineBuffer?, ghost height: string -> nat)
    requires FolderEdgesDescend(children, height)
    modifies out
    ensures out != null ==> out.lines == old(out.lines) + TreeLines(node, children, prefix, height)
    decreases height(node.id), 1, 0
  {
    var line := prefix + node.name + "/";
    if out != null {
      out.Append(line);
    }
    var cs := SortByName(ChildrenOf(children, node.id));
    SortedChildrenDescend(children, node, height);
    PrintSubtrees(cs, children, prefix + "  ", out, height, height(node.id));
  }

  /** The loop of `print_tree` over the sorted children: recurses into each folder. */
  method PrintSubtrees(cs: seq<Node>, children: map<string, seq<Node>>, prefix: string, out: LineBuffer?, ghost height: string -> nat, ghost bound: nat)
    requires FolderEdgesDescend(children, height)
    requires FoldersBelow(cs, height, bound)
    modifies out
    ensures out != null ==> out.lines == old(out.lines) + ForestLines(cs, |cs|, children, prefix, height, bound)
    decreases bound, 0, |cs| + 1
  {
    ghost var head := if out != null then out.lines else [];
    ghost var printed: seq<string> := [];
    var i := 0;
    while i < |cs|
      invariant 0 <= i <= |cs|
      invariant printed == ForestLines(cs, i, children, prefix, height, bound)
      invariant out != null ==> out.lines == head + printed
    {
      var child := cs[i];
      if IsFolder(child) {
        PrintTree(child, children, prefix, out, height);
        ghost var sub := TreeLines(child, children, prefix, height);
        AppendGroup(head, printed, sub);
        printed := printed + sub;
      }
      i := i + 1;
    }
  }

  /** The lines of the given subtrees, each printed from `prefix`, one after the other. */
  ghost function Subtrees(vs: seq<Node>, children: map<string, seq<Node>>, prefix: string, height: string -> nat): seq<string>
    requires FolderEdgesDescend(children, height)
  {
    if vs == [] then []
    else Subtrees(vs[..|vs| - 1], children, prefix, height) + TreeLines(vs[|vs| - 1], children, prefix, height)
  }

  /** The children `print_tree` descends into: the folders among them, in name order. */
  function Visited(children: map<string, seq<Node>>, node: Node): seq<Node>
  {
    Filter(SortByName(ChildrenOf(children, node.id)), IsFolder)
  }

  /** Walking the sorted children and skipping non-folders prints exactly the subtrees
      of the folders among them, in the same order. */
  lemma {:induction false} ForestVisitsFolders(cs: seq<Node>, n: nat, children: map<string, seq<Node>>, prefix: string, height: string -> nat, bound: nat)
    requires FolderEdgesDescend(children, height)
    requires n <= |cs|
    requires FoldersBelow(cs, height, bound)
    ensures ForestLines(cs, n, children, prefix, height, bound) == Subtrees(FilterPrefix(cs, n, IsFolder), children, prefix, height)
  {
    if n > 0 {
      ForestVisitsFolders(cs, n - 1, children, prefix, height, bound);
      SubtreesFilterStep(cs, n, IsFolder, children, prefix, height);
    }
  }

  lemma SubtreesSnoc(vs: seq<Node>, v: Node, children: map<string, seq<Node>>, prefix: string, height: string -> nat)
    requires FolderEdgesDescend(children, height)
    ensures Subtrees(vs + [v], children, prefix, height) == Subtrees(vs, children, prefix, height) + TreeLines(v, children, prefix, height)
  {
    assert (vs + [v])[..|vs|] == vs;
  }

  /** `print_tree` prints the node's line, then the subtrees of its folder children in
      ascending name order, two spaces deeper. */
  lemma TreeLinesVisitOrder(node: Node, children: map<string, seq<Node>>, prefix: string, height: string -> nat)
    requires FolderEdgesDescend(children, height)
    ensures TreeLines(node, children, prefix, height)
      == [prefix + node.name + "/"] + Subtrees(Visited(children, node), children, prefix + "  ", height)
  {
    var cs := SortByName(ChildrenOf(children, node.id));
    SortedChildrenDescend(children, node, height);
    ForestVisitsFolders(cs, |cs|, children, prefix + "  ", height, height(node.id));
  }

  /** The visited children are sorted by name, and they are the folder children, each as
      often as it is listed. */
  lemma VisitedSortedFolders(children: map<string, seq<Node>>, node: Node, x: Node)
    ensures SortedByName(Visited(children, node))
    ensures Occurrences(Visited(children, node), x)
      == if IsFolder(x) then Occurrences(ChildrenOf(children, node.id), x) else 0
  {
    var cs := ChildrenOf(children, node.id);
    SortByNameSorted(cs);
    FilterSorted(SortByName(cs), IsFolder);
    FilterCount(SortByName(cs), IsFolder, x);
    SortByNamePermutes(cs, x);
  }

  /** Every line starts with `prefix`. */
  predicate Indented(lines: seq<string>, prefix: string)
  {
    forall k :: 0 <= k < |lines| ==> prefix <= lines[k]
  }

  /** Every line of a subtree starts with its prefix: the first is the node's own line,
      every later one is indented by at least two more spaces. */
  lemma {:induction false} TreeLinesShape(node: Node, children: map<string, seq<Node>>, prefix: string, height: string -> nat)
    requires FolderEdgesDescend(children, height)
    ensures |TreeLines(node, children, prefix, height)| >= 1
    ensures TreeLines(node, children, prefix, height)[0] == prefix + node.name + "/"
    ensures Indented(TreeLines(node, children, prefix, height)[1..], prefix + "  ")
    decreases height(node.id), 1, 0
  {
    var cs := SortByName(ChildrenOf(children, node.id));
    SortedChildrenDescend(children, node, height);
    ForestLinesIndented(cs, |cs|, children, prefix + "  ", height, height(node.id));
    var rest := ForestLines(cs, |cs|, children, prefix + "  ", height, height(node.id));
    var lines := [prefix + node.name + "/"] + rest;
    assert TreeLines(node, children, prefix, height) == lines;
    assert lines[1..] == rest;
  }

  lemma {:induction false} ForestLinesIndented(cs: seq<Node>, n: nat, children: map<string, seq<Node>>, prefix: string, height: string -> nat, bound: nat)
    requires FolderEdgesDescend(children, height)
    requires n <= |cs|
    requires FoldersBelow(cs, height, bound)
    ensures Indented(ForestLines(cs, n, children, prefix, height, bound), prefix)
    decreases bound, 0, n
  {
    if n > 0 {
      ForestLinesIndented(cs, n - 1, children, prefix, height, bound);
      var front := ForestLines(cs, n - 1, children, prefix, height, bound);
      if IsFolder(cs[n - 1]) {
        TreeLinesShape(cs[n - 1], children, prefix, height);
        var sub := TreeLines(cs[n - 1], children, prefix, height);
        assert ForestLines(cs, n, children, prefix, height, bound) == front + sub;
        PrefixOfConcat(prefix, "  ");
        PrefixOfConcat(prefix, cs[n - 1].name + "/");
        assert sub[0] == prefix + (cs[n - 1].name + "/");
        forall k | 0 <= k < |sub| ensures prefix <= sub[k] {
          if k > 0 {
            assert sub[k] == sub[1..][k - 1];
            PrefixTransitive(prefix, prefix + "  ", sub[k]);
          }
        }
        IndentedConcat(front, sub, prefix);
      } else {
        assert ForestLines(cs, n, children, prefix, height, bound) == front;
      }
    }
  }

  lemma IndentedConcat(a: seq<string>, b: seq<string>, prefix: string)
    requires Indented(a, prefix)
    requires forall k :: 0 <= k < |b| ==> prefix <= b[k]
    ensures Indented(a + b, prefix)
  {
    forall k | 0 <= k < |a + b| ensures prefix <= (a + b)[k] {
      if k >= |a| {
        assert (a + b)[k] == b[k - |a|];
      }
    }
  }

  lemma PrefixOfConcat(a: string, b: string)
    ensures a <= a + b
  {
    assert (a + b)[..|a|] == a;
  }

  lemma PrefixTransitive(a: string, b: string, c: string)
    requires a <= b && b <= c
    ensures a <= c
  {
    assert c[..|a|] == b[..|a|];
  }

  /** No parent of `n` is a key of the id index. */
  predicate IsRoot(fileMap: map<string, Node>, n: Node)
  {
    forall i :: 0 <= i < |n.parents| ==> n.parents[i] !in fileMap
  }

  function RootTest(fileMap: map<string, Node>): Node -> bool
  {
    n => IsRoot(fileMap, n)
  }

  /** The folders the tree is seeded from, in the order they are printed. */
  function Roots(files: seq<Node>, fileMap: map<string, Node>): seq<Node>
  {
    Filter(SortByName(Filter(files, IsFolder)), RootTest(fileMap))
  }

  /** The tree written by the main block: the subtrees of the root folders, in name order. */
  method RenderTree(files: seq<Node>, fileMap: map<string, Node>, children: map<string, seq<Node>>, ghost height: string -> nat)
    returns (treeLines: seq<string>)
    requires FolderEdgesDescend(children, height)
    ensures treeLines == Subtrees(Roots(files, fileMap), children, "", height)
  {
    var folders := Filter(files, IsFolder);
    var sorted := SortByName(folders);
    var out := new LineBuffer();
    PrintRoots(sorted, fileMap, children, out, height);
    treeLines := out.lines;
  }

  /** The loop over the sorted folders: each one without a parent in the index is
      printed as a tree of its own. */
  method PrintRoots(rs: seq<Node>, fileMap: map<string, Node>, children: map<string, seq<Node>>, out: LineBuffer, ghost height: string -> nat)
    requires FolderEdgesDescend(children, height)
    modifies out
    ensures out.lines == old(out.lines) + Subtrees(Filter(rs, RootTest(fileMap)), children, "", height)
  {
    ghost var head := out.lines;
    ghost var printed: seq<string> := [];
    var i := 0;
    while i < |rs|
      invariant 0 <= i <= |rs|
      invariant printed == RootLines(rs, i, fileMap, children, height)
      invariant out.lines == head + printed
    {
      var folder := rs[i];
      if IsRoot(fileMap, folder) {
        PrintTree(folder, children, "", out, height);
        ghost var sub := TreeLines(folder, children, "", height);
        AppendGroup(head, printed, sub);
        printed := printed + sub;
      }
      i := i + 1;
    }
    RootLinesInOrder(rs, |rs|, fileMap, children, height);
  }

  /** The lines printed for the roots among the first `n` folders of `rs`. */
  ghost function RootLines(rs: seq<Node>, n: nat, fileMap: map<string, Node>, children: map<string, seq<Node>>, height: string -> nat): seq<string>
    requires FolderEdgesDescend(children, height)
    requires n <= |rs|
  {
    if n == 0 then []
    else
      RootLines(rs, n - 1, fileMap, children, height)
        + (if IsRoot(fileMap, rs[n - 1]) then TreeLines(rs[n - 1], children, "", height) else [])
  }

  lemma {:induction false} RootLinesInOrder(rs: seq<Node>, n: nat, fileMap: map<string, Node>, children: map<string, seq<Node>>, height: string -> nat)
    requires FolderEdgesDescend(children, height)
    requires n <= |rs|
    ensures RootLines(rs, n, fileMap, children, height) == Subtrees(FilterPrefix(rs, n, RootTest(fileMap)), children, "", height)
  {
    if n > 0 {
      RootLinesInOrder(rs, n - 1, fileMap, children, height);
      SubtreesFilterStep(rs, n, RootTest(fileMap), children, "", height);
    }
  }

  /** One more element of `s` adds its subtree exactly when it passes `keep`. */
  lemma SubtreesFilterStep(s: seq<Node>, n: nat, keep: Node -> bool, children: map<string, seq<Node>>, prefix: string, height: string -> nat)
    requires FolderEdgesDescend(children, height)
    requires 0 < n <= |s|
    ensures Subtrees(FilterPrefix(s, n, keep), children, prefix, height)
      == Subtrees(FilterPrefix(s, n - 1, keep), children, prefix, height)
        + (if keep(s[n - 1]) then TreeLines(s[n - 1], children, prefix, height) else [])
  {
    var front := FilterPrefix(s, n - 1, keep);
    if keep(s[n - 1]) {
      SubtreesSnoc(front, s[n - 1], children, prefix, height);
    } else {
      assert FilterPrefix(s, n, keep) == front + [] == front;
      assert Subtrees(front, children, prefix, height) + [] == Subtrees(front, children, prefix, height);
    }
  }

  /** The roots are in ascending name order. */
  lemma RootsSorted(files: seq<Node>, fileMap: map<string, Node>)
    ensures SortedByName(Roots(files, fileMap))
  {
    var sorted := SortByName(Filter(files, IsFolder));
    SortByNameSorted(Filter(files, IsFolder));
    FilterSorted(sorted, RootTest(fileMap));
  }

  /** The roots are exactly the folders no parent of which is a key of the id index,
      each as often as it occurs in the listing. */
  lemma RootsCount(files: seq<Node>, fileMap: map<string, Node>, x: Node)
    ensures Occurrences(Roots(files, fileMap), x)
      == if IsFolder(x) && IsRoot(fileMap, x) then Occurrences(files, x) else 0
  {
    var folders := Filter(files, IsFolder);
    FilterCount(files, IsFolder, x);
    SortByNamePermutes(folders, x);
    FilterCount(SortByName(folders), RootTest(fileMap), x);
  }
}
