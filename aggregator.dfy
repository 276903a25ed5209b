/** `get_size_and_details`: total size, file count and latest modification time of a subtree. */
module Aggregator {
  import opened DriveRecords
  import StringOrder

  /** The later of two timestamps: the kept one is replaced only by a strictly later one. */
  function Later(a: string, b: string): (r: string)
    ensures r == a || r == b
    ensures StringOrder.LessEq(a, r) && StringOrder.LessEq(b, r)
  {
    StringOrder.LessTotal(a, b);
    if StringOrder.Less(a, b) then b else a
  }

  /** The rank a recursive call on `n` descends from: files never recurse. */
  ghost function Measure(n: Node, height: string -> nat): nat
  {
    if IsFolder(n) then height(n.id) + 1 else 0
  }

  /** Every record in `cs` ranks below `bound`. */
  ghost predicate RanksBelow(cs: seq<Node>, height: string -> nat, bound: nat)
  {
    forall i :: 0 <= i < |cs| ==> Measure(cs[i], height) < bound
  }

  lemma ChildrenRankBelow(node: Node, children: map<string, seq<Node>>, height: string -> nat)
    requires FolderEdgesDescend(children, height)
    requires IsFolder(node)
    ensures RanksBelow(ChildrenOf(children, node.id), height, Measure(node, height))
  {
  }

  /** The triple `get_size_and_details` returns. */
  datatype Totals = Totals(size: nat, count: nat, latest: string)

  /** One pass of the loop body: add the child's size and count, keep the later time. */
  function Add(acc: Totals, t: Totals): Totals
  {
    Totals(acc.size + t.size, acc.count + t.count, Later(acc.latest, t.latest))
  }

  /** What `get_size_and_details(node)` returns. */
  ghost function Details(node: Node, children: map<string, seq<Node>>, height: string -> nat): Totals
    requires FolderEdgesDescend(children, height)
    decreases Measure(node, height), 1, 0
  {
    if IsFolder(node) then
      var cs := ChildrenOf(children, node.id);
      ChildrenRankBelow(node, children, height);
      DetailsAll(Totals(0, 0, StampOf(node)), cs, |cs|, children, height, Measure(node, height))
    else
      Totals(SizeOf(node), 1, StampOf(node))
  }

  /** `init` with the results for `cs[..n]` added one after the other. */
  ghost function DetailsAll(init: Totals, cs: seq<Node>, n: nat, children: map<string, seq<Node>>, height: string -> nat, bound: nat): Totals
    requires FolderEdgesDescend(children, height)
    requires n <= |cs|
    requires RanksBelow(cs, height, bound)
    decreases bound, 0, n
  {
    if n == 0 then init
    else Add(DetailsAll(init, cs, n - 1, children, height, bound), Details(cs[n - 1], children, height))
  }

  /** `get_size_and_details`: a file reports its own size, a count of one and its own
      timestamp; a folder sums over its children and keeps the latest timestamp,
      starting from its own. */
  method GetSizeAndDetails(node: Node, children: map<string, seq<Node>>, ghost height: string -> nat)
    returns (totalSize: nat, totalCount: nat, latestModified: string)
    requires FolderEdgesDescend(children, height)
    ensures Totals(totalSize, totalCount, latestModified) == Details(node, children, height)
    ensures !IsFolder(node) ==> totalSize == SizeOf(node) && totalCount == 1 && latestModified == StampOf(node)
    ensures IsFolder(node) && ChildrenOf(children, node.id) == [] ==>
      totalSize == 0 && totalCount == 0 && latestModified == StampOf(node)
    decreases Measure(node, height), 1
  {
    if IsFolder(node) {
      var cs := ChildrenOf(children, node.id);
      ChildrenRankBelow(node, children, height);
      totalSize, totalCount, latestModified := AggregateChildren(StampOf(node), cs, children, height, Measure(node, height));
    } else {
      totalSize := SizeOf(node);
      totalCount := 1;
      latestModified := StampOf(node);
    }
  }

  /** The loop of `get_size_and_details` over the children of a folder, starting from
      a zero size and count and the folder's own timestamp. */
  method AggregateChildren(init: string, cs: seq<Node>, children: map<string, seq<Node>>, ghost height: string -> nat, ghost bound: nat)
    returns (totalSize: nat, totalCount: nat, latestModified: string)
    requires FolderEdgesDescend(children, height)
    requires RanksBelow(cs, height, bound)
    ensures Totals(totalSize, totalCount, latestModified) == DetailsAll(Totals(0, 0, init), cs, |cs|, children, height, bound)
    decreases bound, 0
  {
    totalSize, totalCount := 0, 0;
    latestModified := init;
    var i := 0;
    while i < |cs|
      invariant 0 <= i <= |cs|
      invariant Totals(totalSize, totalCount, latestModified) == DetailsAll(Totals(0, 0, init), cs, i, children, height, bound)
    {
      var size, count, lastMod := GetSizeAndDetails(cs[i], children, height);
      totalSize := totalSize + size;
      totalCount := totalCount + count;
      if StringOrder.Less(latestModified, lastMod) {
        latestModified := lastMod;
      }
      i := i + 1;
    }
  }

  /** The file records reachable from `node` through the children index, with
      multiplicity: a file is its own only file, a folder gathers its children's. */
  ghost function Reachable(node: Node, children: map<string, seq<Node>>, height: string -> nat): seq<Node>
    requires FolderEdgesDescend(children, height)
    decreases Measure(node, height), 1, 0
  {
    if IsFolder(node) then
      var cs := ChildrenOf(children, node.id);
      ChildrenRankBelow(node, children, height);
      ReachableAll(cs, |cs|, children, height, Measure(node, height))
    else
      [node]
  }

  /** The files reachable from `cs[..n]`, child after child. */
  ghost function ReachableAll(cs: seq<Node>, n: nat, children: map<string, seq<Node>>, height: string -> nat, bound: nat): seq<Node>
    requires FolderEdgesDescend(children, height)
    requires n <= |cs|
    requires RanksBelow(cs, height, bound)
    decreases bound, 0, n
  {
    if n == 0 then []
    else ReachableAll(cs, n - 1, children, height, bound) + Reachable(cs[n - 1], children, height)
  }

  /** The sum of the sizes of the given records (missing sizes count 0). */
  function SumSizes(fs: seq<Node>): nat
  {
    if fs == [] then 0 else SumSizes(fs[..|fs| - 1]) + SizeOf(fs[|fs| - 1])
  }

  lemma {:induction false} SumSizesAppend(a: seq<Node>, b: seq<Node>)
    ensures SumSizes(a + b) == SumSizes(a) + SumSizes(b)
  {
    if b == [] {
      assert a + b == a;
    } else {
      assert (a + b)[..|a + b| - 1] == a + b[..|b| - 1];
      SumSizesAppend(a, b[..|b| - 1]);
    }
  }

  /** The size is the sum of the sizes of the reachable files and the count is their
      number: every file is counted once per path to it, and folders count nothing. */
  lemma {:induction false} DetailsSumReachable(node: Node, children: map<string, seq<Node>>, height: string -> nat)
    requires FolderEdgesDescend(children, height)
    ensures Details(node, children, height).size == SumSizes(Reachable(node, children, height))
    ensures Details(node, children, height).count == |Reachable(node, children, height)|
    decreases Measure(node, height), 1, 0
  {
    if IsFolder(node) {
      var cs := ChildrenOf(children, node.id);
      ChildrenRankBelow(node, children, height);
      DetailsAllSumReachableAll(Totals(0, 0, StampOf(node)), cs, |cs|, children, height, Measure(node, height));
    } else {
      assert [node][..0] == [];
    }
  }

  lemma {:induction false} DetailsAllSumReachableAll(init: Totals, cs: seq<Node>, n: nat, children: map<string, seq<Node>>, height: string -> nat, bound: nat)
    requires FolderEdgesDescend(children, height)
    requires n <= |cs|
    requires RanksBelow(cs, height, bound)
    ensures DetailsAll(init, cs, n, children, height, bound).size == init.size + SumSizes(ReachableAll(cs, n, children, height, bound))
    ensures DetailsAll(init, cs, n, children, height, bound).count == init.count + |ReachableAll(cs, n, children, height, bound)|
    decreases bound, 0, n
  {
    if n > 0 {
      DetailsAllSumReachableAll(init, cs, n - 1, children, height, bound);
      DetailsSumReachable(cs[n - 1], children, height);
      SumSizesAppend(ReachableAll(cs, n - 1, children, height, bound), Reachable(cs[n - 1], children, height));
    }
  }

  /** No record of `fs` is a folder. */
  predicate AllFiles(fs: seq<Node>)
  {
    forall i :: 0 <= i < |fs| ==> !IsFolder(fs[i])
  }

  /** Only file records are counted: folders contribute neither size nor count. */
  lemma {:induction false} ReachableAreFiles(node: Node, children: map<string, seq<Node>>, height: string -> nat)
    requires FolderEdgesDescend(children, height)
    ensures AllFiles(Reachable(node, children, height))
    decreases Measure(node, height), 1, 0
  {
    if IsFolder(node) {
      var cs := ChildrenOf(children, node.id);
      ChildrenRankBelow(node, children, height);
      ReachableAllAreFiles(cs, |cs|, children, height, Measure(node, height));
    }
  }

  lemma {:induction false} ReachableAllAreFiles(cs: seq<Node>, n: nat, children: map<string, seq<Node>>, height: string -> nat, bound: nat)
    requires FolderEdgesDescend(children, height)
    requires n <= |cs|
    requires RanksBelow(cs, height, bound)
    ensures AllFiles(ReachableAll(cs, n, children, height, bound))
    decreases bound, 0, n
  {
    if n > 0 {
      ReachableAllAreFiles(cs, n - 1, children, height, bound);
      ReachableAreFiles(cs[n - 1], children, height);
      var front, back := ReachableAll(cs, n - 1, children, height, bound), Reachable(cs[n - 1], children, height);
      assert ReachableAll(cs, n, children, height, bound) == front + back;
      forall i | 0 <= i < |front + back| ensures !IsFolder((front + back)[i]) {
        if i < |front| {
          assert (front + back)[i] == front[i];
        } else {
          assert (front + back)[i] == back[i - |front|];
        }
      }
    }
  }

  /** Folding `Later` over the children gives their maximum: it is no earlier than the
      initial time and every child's latest time, and it is one of them. */
  lemma {:induction false} LatestAllIsMaximum(init: Totals, cs: seq<Node>, n: nat, children: map<string, seq<Node>>, height: string -> nat, bound: nat)
    requires FolderEdgesDescend(children, height)
    requires n <= |cs|
    requires RanksBelow(cs, height, bound)
    ensures StringOrder.LessEq(init.latest, DetailsAll(init, cs, n, children, height, bound).latest)
    ensures forall i :: 0 <= i < n ==>
      StringOrder.LessEq(Details(cs[i], children, height).latest, DetailsAll(init, cs, n, children, height, bound).latest)
    ensures DetailsAll(init, cs, n, children, height, bound).latest == init.latest ||
      exists i :: 0 <= i < n && DetailsAll(init, cs, n, children, height, bound).latest == Details(cs[i], children, height).latest
    decreases n
  {
    if n > 0 {
      LatestAllIsMaximum(init, cs, n - 1, children, height, bound);
      var m := DetailsAll(init, cs, n - 1, children, height, bound).latest;
      var r := DetailsAll(init, cs, n, children, height, bound).latest;
      assert r == Later(m, Details(cs[n - 1], children, height).latest);
      StringOrder.LessEqTransitive(init.latest, m, r);
      forall i | 0 <= i < n - 1 ensures StringOrder.LessEq(Details(cs[i], children, height).latest, r) {
        StringOrder.LessEqTransitive(Details(cs[i], children, height).latest, m, r);
      }
    }
  }

  /** A folder's latest time is the maximum of its own time (the epoch if missing) and
      every child's latest time; in particular it is never earlier than its own time. */
  lemma LatestIsMaximum(node: Node, children: map<string, seq<Node>>, height: string -> nat)
    requires FolderEdgesDescend(children, height)
    ensures StringOrder.LessEq(StampOf(node), Details(node, children, height).latest)
    ensures IsFolder(node) ==> forall i :: 0 <= i < |ChildrenOf(children, node.id)| ==>
      StringOrder.LessEq(Details(ChildrenOf(children, node.id)[i], children, height).latest, Details(node, children, height).latest)
    ensures IsFolder(node) ==>
      (Details(node, children, height).latest == StampOf(node) ||
       exists i :: 0 <= i < |ChildrenOf(children, node.id)| &&
         Details(node, children, height).latest == Details(ChildrenOf(children, node.id)[i], children, height).latest)
  {
    if IsFolder(node) {
      var cs := ChildrenOf(children, node.id);
      ChildrenRankBelow(node, children, height);
      LatestAllIsMaximum(Totals(0, 0, StampOf(node)), cs, |cs|, children, height, Measure(node, height));
    }
  }

  /** Every time in `fs` is at most `latest`. */
  predicate NoneLater(fs: seq<Node>, latest: string)
  {
    forall i :: 0 <= i < |fs| ==> StringOrder.LessEq(StampOf(fs[i]), latest)
  }

  /** No file counted in a subtree is later than the subtree's latest time. */
  lemma {:induction false} LatestCoversReachable(node: Node, children: map<string, seq<Node>>, height: string -> nat)
    requires FolderEdgesDescend(children, height)
    ensures NoneLater(Reachable(node, children, height), Details(node, children, height).latest)
    decreases Measure(node, height), 1, 0
  {
    if IsFolder(node) {
      var cs := ChildrenOf(children, node.id);
      ChildrenRankBelow(node, children, height);
      LatestAllCoversReachableAll(Totals(0, 0, StampOf(node)), cs, |cs|, children, height, Measure(node, height));
    }
  }

  lemma {:induction false} LatestAllCoversReachableAll(init: Totals, cs: seq<Node>, n: nat, children: map<string, seq<Node>>, height: string -> nat, bound: nat)
    requires FolderEdgesDescend(children, height)
    requires n <= |cs|
    requires RanksBelow(cs, height, bound)
    ensures NoneLater(ReachableAll(cs, n, children, height, bound), DetailsAll(init, cs, n, children, height, bound).latest)
    decreases bound, 0, n
  {
    if n > 0 {
      var last := cs[n - 1];
      var front, back := ReachableAll(cs, n - 1, children, height, bound), Reachable(last, children, height);
      var m, l := DetailsAll(init, cs, n - 1, children, height, bound).latest, Details(last, children, height).latest;
      var r := DetailsAll(init, cs, n, children, height, bound).latest;
      assert r == Later(m, l);
      assert ReachableAll(cs, n, children, height, bound) == front + back;
      LatestAllCoversReachableAll(init, cs, n - 1, children, height, bound);
      LatestCoversReachable(last, children, height);
      forall i | 0 <= i < |front + back| ensures StringOrder.LessEq(StampOf((front + back)[i]), r) {
        if i < |front| {
          assert (front + back)[i] == front[i];
          StringOrder.LessEqTransitive(StampOf(front[i]), m, r);
        } else {
          assert (front + back)[i] == back[i - |front|];
          StringOrder.LessEqTransitive(StampOf(back[i - |front|]), l, r);
        }
      }
    }
  }
}
