/** `build_tree`: the id index and the parent-to-children index built from the flat listing. */
module HierarchyBuilder {
  import opened DriveRecords

  /** How many times `p` occurs in `xs`. */
  function Count(xs: seq<string>, p: string): nat
  {
    if xs == [] then 0
    else Count(xs[..|xs| - 1], p) + (if xs[|xs| - 1] == p then 1 else 0)
  }

  /** `k` copies of `n`. */
  function Repeat(n: Node, k: nat): seq<Node>
  {
    if k == 0 then [] else Repeat(n, k - 1) + [n]
  }

  /** The list `children[p]` holds once the listing `files` is processed. */
  function Listing(files: seq<Node>, p: string): seq<Node>
  {
    if files == [] then []
    else Listing(files[..|files| - 1], p) + Repeat(files[|files| - 1], Count(files[|files| - 1].parents, p))
  }

  /** The record `file_map[k]` holds once the listing `files` is processed. */
  function LastById(files: seq<Node>, k: string): Option<Node>
  {
    if files == [] then None
    else if files[|files| - 1].id == k then Some(files[|files| - 1])
    else LastById(files[..|files| - 1], k)
  }

  /** The record the id index holds under `k`, if any. */
  function Lookup(fileMap: map<string, Node>, k: string): Option<Node>
  {
    if k in fileMap then Some(fileMap[k]) else None
  }

  /** `build_tree`: indexes the records by id (a later record with the same id wins)
      and lists every record under each of its parents, in input order. */
  method BuildTree(files: seq<Node>) returns (fileMap: map<string, Node>, children: map<string, seq<Node>>)
    ensures forall k :: Lookup(fileMap, k) == LastById(files, k)
    ensures forall k :: k in fileMap <==> exists i :: 0 <= i < |files| && files[i].id == k
    ensures forall p :: ChildrenOf(children, p) == Listing(files, p)
    ensures forall p :: p in children <==> exists i :: 0 <= i < |files| && p in files[i].parents
  {
    fileMap, children := map[], map[];
    var i := 0;
    while i < |files|
      invariant 0 <= i <= |files|
      invariant forall k :: Lookup(fileMap, k) == LastById(files[..i], k)
      invariant forall p :: ChildrenOf(children, p) == Listing(files[..i], p)
      invariant forall p :: p in children ==> children[p] != []
    {
      var file := files[i];
      ghost var before := fileMap;
      fileMap := fileMap[file.id := file];
      ghost var prior := children;
      children := AddUnderParents(children, file);
      forall k ensures Lookup(fileMap, k) == LastById(files[..i + 1], k) {
        assert Lookup(before, k) == LastById(files[..i], k);
        LastByIdStep(files, i, k);
      }
      forall p ensures ChildrenOf(children, p) == Listing(files[..i + 1], p) {
        assert ChildrenOf(prior, p) == Listing(files[..i], p);
        ListingStep(files, i, p);
      }
      i := i + 1;
    }
    assert files[..i] == files;
    forall k ensures k in fileMap <==> exists i :: 0 <= i < |files| && files[i].id == k {
      LastByIdNone(files, k);
    }
    forall p ensures p in children <==> exists i :: 0 <= i < |files| && p in files[i].parents {
      ListingNonEmpty(files, p);
    }
  }

  /** The inner loop of `build_tree`: appends `file` to the list of each of its parents,
      starting an empty list for a parent not yet seen, so a parent listed twice gets the
      record twice. */
  method AddUnderParents(children: map<string, seq<Node>>, file: Node) returns (updated: map<string, seq<Node>>)
    requires forall p :: p in children ==> children[p] != []
    ensures forall p :: ChildrenOf(updated, p) == ChildrenOf(children, p) + Repeat(file, Count(file.parents, p))
    ensures forall p :: p in updated ==> updated[p] != []
  {
    updated := children;
    var j := 0;
    while j < |file.parents|
      invariant 0 <= j <= |file.parents|
      invariant forall p :: ChildrenOf(updated, p) == ChildrenOf(children, p) + Repeat(file, Count(file.parents[..j], p))
      invariant forall p :: p in updated ==> updated[p] != []
    {
      var parent := file.parents[j];
      AddStep(children, updated, file, j);
      updated := updated[parent := ChildrenOf(updated, parent) + [file]];
      j := j + 1;
    }
    assert file.parents[..j] == file.parents;
  }

  /** One more parent of `file` gets `file` appended to its list. */
  lemma AddStep(children: map<string, seq<Node>>, prior: map<string, seq<Node>>, file: Node, j: nat)
    requires j < |file.parents|
    requires forall p :: ChildrenOf(prior, p) == ChildrenOf(children, p) + Repeat(file, Count(file.parents[..j], p))
    ensures var parent := file.parents[j];
      forall p :: ChildrenOf(prior[parent := ChildrenOf(prior, parent) + [file]], p)
        == ChildrenOf(children, p) + Repeat(file, Count(file.parents[..j + 1], p))
  {
    var parent := file.parents[j];
    var updated := prior[parent := ChildrenOf(prior, parent) + [file]];
    forall p ensures ChildrenOf(updated, p) == ChildrenOf(children, p) + Repeat(file, Count(file.parents[..j + 1], p)) {
      CountStep(file.parents, j, p);
      if p == parent {
        var c := Count(file.parents[..j], p);
        assert ChildrenOf(prior, p) == ChildrenOf(children, p) + Repeat(file, c);
        assert Repeat(file, c + 1) == Repeat(file, c) + [file];
        assert ChildrenOf(children, p) + Repeat(file, c) + [file] == ChildrenOf(children, p) + (Repeat(file, c) + [file]);
      } else {
        assert ChildrenOf(updated, p) == ChildrenOf(prior, p);
      }
    }
  }

  lemma CountStep(xs: seq<string>, j: nat, p: string)
    requires j < |xs|
    ensures Count(xs[..j + 1], p) == Count(xs[..j], p) + (if xs[j] == p then 1 else 0)
  {
    assert xs[..j + 1][..j] == xs[..j];
  }

  lemma ListingStep(files: seq<Node>, i: nat, p: string)
    requires i < |files|
    ensures Listing(files[..i + 1], p) == Listing(files[..i], p) + Repeat(files[i], Count(files[i].parents, p))
  {
    assert files[..i + 1][..i] == files[..i];
  }

  lemma LastByIdStep(files: seq<Node>, i: nat, k: string)
    requires i < |files|
    ensures LastById(files[..i + 1], k) == if files[i].id == k then Some(files[i]) else LastById(files[..i], k)
  {
    assert files[..i + 1][..i] == files[..i];
  }

  lemma {:induction false} CountPositive(xs: seq<string>, p: string)
    ensures Count(xs, p) > 0 <==> p in xs
  {
    if xs != [] {
      CountPositive(xs[..|xs| - 1], p);
      assert xs == xs[..|xs| - 1] + [xs[|xs| - 1]];
    }
  }

  lemma {:induction false} RepeatMembers(n: Node, k: nat, x: Node)
    ensures x in Repeat(n, k) <==> k > 0 && x == n
  {
    if k > 0 {
      RepeatMembers(n, k - 1, x);
    }
  }

  /** `children[p]` holds exactly the records that list `p` among their parents. */
  lemma {:induction false} ListingMembers(files: seq<Node>, p: string, x: Node)
    ensures x in Listing(files, p) <==> exists i :: 0 <= i < |files| && files[i] == x && p in x.parents
  {
    if files != [] {
      var init, last := files[..|files| - 1], files[|files| - 1];
      ListingMembers(init, p, x);
      RepeatMembers(last, Count(last.parents, p), x);
      CountPositive(last.parents, p);
      if x in Listing(files, p) {
        if x in Listing(init, p) {
          var i :| 0 <= i < |init| && init[i] == x && p in x.parents;
          assert files[i] == x;
        } else {
          assert files[|files| - 1] == x && p in x.parents;
        }
      } else {
        forall i | 0 <= i < |files| && files[i] == x
          ensures p !in x.parents
        {
          if i < |init| {
            assert init[i] == x;
          }
        }
      }
    }
  }

  /** A parent id gets a key in the index exactly when some record lists it. */
  lemma ListingNonEmpty(files: seq<Node>, p: string)
    ensures Listing(files, p) != [] <==> exists i :: 0 <= i < |files| && p in files[i].parents
  {
    var l := Listing(files, p);
    if l != [] {
      ListingMembers(files, p, l[0]);
    }
    if i :| 0 <= i < |files| && p in files[i].parents {
      ListingMembers(files, p, files[i]);
    }
  }

  /** A record without parents appears in no children list. */
  lemma ParentlessUnlisted(files: seq<Node>, x: Node, p: string)
    requires x.parents == []
    ensures x !in Listing(files, p)
  {
    ListingMembers(files, p, x);
  }

  /** Processing two listings one after the other: the children lists keep input order. */
  lemma {:induction false} ListingAppend(a: seq<Node>, b: seq<Node>, p: string)
    ensures Listing(a + b, p) == Listing(a, p) + Listing(b, p)
  {
    if b == [] {
      assert a + b == a;
    } else {
      var binit, blast := b[..|b| - 1], b[|b| - 1];
      assert (a + b)[..|a + b| - 1] == a + binit;
      ListingAppend(a, binit, p);
    }
  }

  /** A single record is listed under `p` once per occurrence of `p` in its parents. */
  lemma ListingSingle(n: Node, p: string)
    ensures Listing([n], p) == Repeat(n, Count(n.parents, p))
  {
    assert [n][..0] == [];
  }

  /** No record with id `k`: no key `k`. */
  lemma {:induction false} LastByIdNone(files: seq<Node>, k: string)
    ensures LastById(files, k) == None <==> forall i :: 0 <= i < |files| ==> files[i].id != k
  {
    if files != [] {
      var init := files[..|files| - 1];
      LastByIdNone(init, k);
      if files[|files| - 1].id != k {
        forall i | 0 <= i < |init| ensures files[i].id == init[i].id { }
      }
    }
  }

  /** The value under an id is the last record with that id: later records overwrite earlier ones. */
  lemma {:induction false} LastByIdIsLast(files: seq<Node>, i: nat)
    requires i < |files|
    requires forall j :: i < j < |files| ==> files[j].id != files[i].id
    ensures LastById(files, files[i].id) == Some(files[i])
  {
    if i < |files| - 1 {
      var init := files[..|files| - 1];
      LastByIdIsLast(init, i);
    }
  }
}
