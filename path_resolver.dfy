/** `get_folder_path`: the slash-separated path of a record, found by following first parents. */
module PathResolver {
  import opened DriveRecords

  /** The first-parent walk has no cycle: `depth` strictly decreases from a record to
      its first parent whenever that parent is itself a key of the id index. */
  ghost predicate FirstParentDescends(fileMap: map<string, Node>, depth: string -> nat)
  {
    forall k :: k in fileMap && fileMap[k].parents != [] && fileMap[k].parents[0] in fileMap ==>
      depth(fileMap[k].parents[0]) < depth(k)
  }

  ghost function WalkMeasure(fileMap: map<string, Node>, id: string, depth: string -> nat): nat
  {
    if id in fileMap then depth(id) + 1 else 0
  }

  /** The ids the walk visits, starting at `id`, leaf first. */
  ghost function Chain(fileMap: map<string, Node>, id: string, depth: string -> nat): (c: seq<string>)
    requires FirstParentDescends(fileMap, depth)
    ensures forall k :: 0 <= k < |c| ==> c[k] in fileMap
    decreases WalkMeasure(fileMap, id, depth)
  {
    if id !in fileMap then []
    else if fileMap[id].parents == [] then [id]
    else [id] + Chain(fileMap, fileMap[id].parents[0], depth)
  }

  /** The names of the given records, in the same order. */
  function Names(fileMap: map<string, Node>, ids: seq<string>): (r: seq<string>)
    requires forall k :: 0 <= k < |ids| ==> ids[k] in fileMap
    ensures |r| == |ids|
    ensures forall k :: 0 <= k < |ids| ==> r[k] == fileMap[ids[k]].name
  {
    if ids == [] then [] else [fileMap[ids[0]].name] + Names(fileMap, ids[1..])
  }

  /** The strings of `xs` with a single `/` between neighbours. */
  function Join(xs: seq<string>): string
  {
    if xs == [] then ""
    else if |xs| == 1 then xs[0]
    else xs[0] + "/" + Join(xs[1..])
  }

  /** The elements of `xs` last first. */
  function Reversed(xs: seq<string>): (r: seq<string>)
    ensures |r| == |xs|
    ensures forall i :: 0 <= i < |xs| ==> r[i] == xs[|xs| - 1 - i]
  {
    if xs == [] then [] else Reversed(xs[1..]) + [xs[0]]
  }

  /** The path `get_folder_path` returns for `id`. */
  ghost function PathOf(fileMap: map<string, Node>, id: string, depth: string -> nat): string
    requires FirstParentDescends(fileMap, depth)
  {
    Join(Reversed(Names(fileMap, Chain(fileMap, id, depth))))
  }

  method GetFolderPath(fileId: string, fileMap: map<string, Node>, ghost depth: string -> nat) returns (path: string)
    requires FirstParentDescends(fileMap, depth)
    ensures path == PathOf(fileMap, fileId, depth)
    ensures fileId !in fileMap ==> path == ""
    ensures fileId in fileMap && fileMap[fileId].parents == [] ==> path == fileMap[fileId].name
  {
    var names: seq<string> := [];
    var current := fileId;
    ghost var whole := Names(fileMap, Chain(fileMap, fileId, depth));
    while current in fileMap
      invariant names + Names(fileMap, Chain(fileMap, current, depth)) == whole
      decreases WalkMeasure(fileMap, current, depth)
    {
      var file := fileMap[current];
      WalkStep(fileMap, current, depth);
      ghost var rest := if file.parents == [] then [] else Names(fileMap, Chain(fileMap, file.parents[0], depth));
      assert names + [file.name] + rest == names + ([file.name] + rest);
      names := names + [file.name];
      if file.parents == [] {
        break;
      }
      current := file.parents[0];
    }
    WalkEnd(fileMap, current, depth, names, whole);
    path := Join(Reversed(names));
  }

  /** One step of the walk: the record's name, then the names along its first parent. */
  lemma WalkStep(fileMap: map<string, Node>, id: string, depth: string -> nat)
    requires FirstParentDescends(fileMap, depth)
    requires id in fileMap
    ensures Names(fileMap, Chain(fileMap, id, depth)) == [fileMap[id].name] +
      (if fileMap[id].parents == [] then [] else Names(fileMap, Chain(fileMap, fileMap[id].parents[0], depth)))
  {
    if fileMap[id].parents != [] {
      assert Chain(fileMap, id, depth) == [id] + Chain(fileMap, fileMap[id].parents[0], depth);
    } else {
      assert Chain(fileMap, id, depth) == [id];
    }
  }

  /** The walk has collected every name once it leaves the index or reaches a record
      without parents. */
  lemma WalkEnd(fileMap: map<string, Node>, current: string, depth: string -> nat, names: seq<string>, whole: seq<string>)
    requires FirstParentDescends(fileMap, depth)
    requires current !in fileMap ==> names + Names(fileMap, Chain(fileMap, current, depth)) == whole
    requires current in fileMap ==> names == whole
    ensures names == whole
  {
    if current !in fileMap {
      assert Chain(fileMap, current, depth) == [];
      assert names + [] == names;
    }
  }

  /** The walk starts at `id`, follows only `parents[0]` at each step, and stops at the
      first record without parents or whose first parent is not a key of the index. */
  lemma {:induction false} ChainShape(fileMap: map<string, Node>, id: string, depth: string -> nat)
    requires FirstParentDescends(fileMap, depth)
    ensures var c := Chain(fileMap, id, depth);
      && (c == [] <==> id !in fileMap)
      && (c != [] ==> c[0] == id)
      && (forall k :: 0 <= k < |c| - 1 ==> fileMap[c[k]].parents != [] && c[k + 1] == fileMap[c[k]].parents[0])
      && (c != [] ==> fileMap[c[|c| - 1]].parents == [] || fileMap[c[|c| - 1]].parents[0] !in fileMap)
    decreases WalkMeasure(fileMap, id, depth)
  {
    if id in fileMap && fileMap[id].parents != [] {
      var p := fileMap[id].parents[0];
      ChainShape(fileMap, p, depth);
      var c, rest := Chain(fileMap, id, depth), Chain(fileMap, p, depth);
      assert c == [id] + rest;
      forall k | 0 <= k < |c| - 1 ensures fileMap[c[k]].parents != [] && c[k + 1] == fileMap[c[k]].parents[0] {
        if k > 0 {
          assert c[k] == rest[k - 1] && c[k + 1] == rest[k];
        }
      }
    }
  }

  lemma {:induction false} JoinSnoc(xs: seq<string>, x: string)
    ensures Join(xs + [x]) == if xs == [] then x else Join(xs) + "/" + x
  {
    if |xs| > 1 {
      assert (xs + [x])[1..] == xs[1..] + [x];
      JoinSnoc(xs[1..], x);
    } else if |xs| == 1 {
      assert xs + [x] == [xs[0], x];
    }
  }

  /** A record whose first parent is in the index has its parent's path, a slash and its
      own name; any other record in the index has just its own name. */
  lemma PathStep(fileMap: map<string, Node>, id: string, depth: string -> nat)
    requires FirstParentDescends(fileMap, depth)
    requires id in fileMap
    ensures fileMap[id].parents != [] && fileMap[id].parents[0] in fileMap ==>
      PathOf(fileMap, id, depth) == PathOf(fileMap, fileMap[id].parents[0], depth) + "/" + fileMap[id].name
    ensures fileMap[id].parents == [] || fileMap[id].parents[0] !in fileMap ==>
      PathOf(fileMap, id, depth) == fileMap[id].name
  {
    var name := fileMap[id].name;
    var c := Chain(fileMap, id, depth);
    if fileMap[id].parents == [] || fileMap[id].parents[0] !in fileMap {
      assert fileMap[id].parents != [] ==> Chain(fileMap, fileMap[id].parents[0], depth) == [];
      assert c == [id];
      assert Names(fileMap, c) == [name];
      assert Reversed([name]) == [name];
    } else {
      var p := fileMap[id].parents[0];
      var rest := Names(fileMap, Chain(fileMap, p, depth));
      assert c == [id] + Chain(fileMap, p, depth);
      assert Names(fileMap, c) == [name] + rest;
      assert Reversed([name] + rest) == Reversed(rest) + [name] by {
        assert ([name] + rest)[1..] == rest;
      }
      JoinSnoc(Reversed(rest), name);
    }
  }
}
