/** What one node takes up, every other node that has the block's past takes up too: the tests of a
    block depend on nothing but its past, not on ids, arrival order or other blocks. */
module Relay {
  import opened Dag
  import opened Blue
  import opened Spec
  import opened Checks
  import opened Convergence

  /** The parents are known, the bluest one is first, and the four tests are passed. */
  ghost predicate Passes(g: Graph, list: seq<Id>, priority: int)
  {
    && list != [] && Known(g, list) && Elems(list) <= g.Keys
    && IsBluest(g, Elems(list), list[0]) && IsDagBlock(g, list, priority)
  }

  // ---------------------------------------------------------------- parts of graphs

  ghost predicate IsPast(g: Graph, s: set<Id>)
  {
    s <= g.Keys && forall x, p {:trigger p in g[x].parents} :: x in s && p in g[x].parents ==> p in s
  }

  ghost function Part(g: Graph, s: set<Id>): (r: Graph)
    requires IsPast(g, s)
    ensures r.Keys == s && Within(r, g)
  {
    var r := map x | x in s :: g[x];
    assert Closed(r) by {
      PartIsClosed(g, s, r);
    }
    r
  }

  lemma PartIsClosed(g: Graph, s: set<Id>, r: map<Id, Node>)
    requires IsPast(g, s) && r.Keys == s && forall x :: x in s ==> r[x] == g[x]
    ensures Closed(r)
  {
    forall b, p | b in r && p in r[b].parents ensures p in r && p < b {
      assert p in g[b].parents;
    }
  }

  lemma {:induction false} LowPrioritiesFrame(g: Graph, h: Graph, list: seq<Id>)
    requires Within(g, h) && Known(g, list)
    ensures Known(h, list) && LowPriorities(g, list) == LowPriorities(h, list)
    decreases |list|
  {
    if list != [] {
      LowPrioritiesFrame(g, h, list[1..]);
    }
  }

  lemma FirstClearFrame(g: Graph, h: Graph, list: seq<Id>)
    requires Within(g, h) && Known(g, list) && list != []
    ensures Known(h, list) && (FirstClear(g, list) <==> FirstClear(h, list))
  {
    ConeFrame(g, h, list[0]);
  }

  /** More blocks do not change the verdict on a list. */
  lemma PassesFrame(g: Graph, h: Graph, list: seq<Id>, priority: int)
    requires Within(g, h) && Known(g, list)
    ensures Passes(g, list, priority) <==> Passes(h, list, priority)
  {
    LowPrioritiesFrame(g, h, list);
    assert forall i :: 0 <= i < |list| ==> g[list[i]] == h[list[i]];
    if list != [] {
      FirstClearFrame(g, h, list);
      ListIsKnown(g, list);
      ListIsKnown(h, list);
    }
  }

  lemma ListIsKnown(g: Graph, list: seq<Id>)
    requires Known(g, list)
    ensures Elems(list) <= g.Keys
  {}

  // ---------------------------------------------------------------- renaming

  lemma {:induction false} LowPrioritiesCorr(g: Graph, h: Graph, f: Renaming, list: seq<Id>)
    requires Twins(g, h, f) && Elems(list) <= f.Keys
    ensures Known(g, list) && Known(h, Renamed(f, list)) && LowPriorities(g, list) == LowPriorities(h, Renamed(f, list))
    decreases |list|
  {
    ElemsHaveAll(list);
    forall i | 0 <= i < |list| ensures list[i] in g && Renamed(f, list)[i] in h {
      TwinOf(g, h, f, list[i]);
    }
    if list != [] {
      HeadAndTail(list);
      assert Elems(list[1..]) <= f.Keys by {
        assert forall x :: x in list[1..] ==> x in Elems(list);
      }
      assert Renamed(f, list)[1..] == Renamed(f, list[1..]);
      TwinOf(g, h, f, list[0]);
      LowPrioritiesCorr(g, h, f, list[1..]);
    }
  }

  lemma LayersCorr(g: Graph, h: Graph, f: Renaming, list: seq<Id>)
    requires Twins(g, h, f) && AlikeBelow(g, h, f, MAX_ID) && Elems(list) <= f.Keys
    requires Known(g, list) && Known(h, Renamed(f, list)) && LayerGapOk(g, list)
    ensures LayerGapOk(h, Renamed(f, list))
  {
    var list' := Renamed(f, list);
    forall i | 0 <= i < |list| ensures h[list'[i]].layer == g[list[i]].layer {
      assert list[i] in Elems(list);
      assert Alike(g, h, f, list[i]);
    }
  }

  lemma LegalityCorr(g: Graph, h: Graph, f: Renaming, list: seq<Id>)
    requires Twins(g, h, f) && Elems(list) <= f.Keys
    requires Known(g, list) && Known(h, Renamed(f, list)) && LegalityOk(g, list)
    ensures LegalityOk(h, Renamed(f, list))
  {
    var list' := Renamed(f, list);
    if |list| > 1 {
      forall i, j | 0 <= i < |list| && 0 <= j < |list| ensures list'[j] !in h[list'[i]].parents {
        ElemsHaveAll(list);
        TwinOf(g, h, f, list[i]);
        CorrAt(f, g[list[i]].parents, h[list'[i]].parents, list[j]);
      }
    }
  }

  lemma FirstClearCorr(g: Graph, h: Graph, f: Renaming, list: seq<Id>)
    requires Twins(g, h, f) && Elems(list) <= f.Keys && list != []
    requires Known(g, list) && Known(h, Renamed(f, list)) && FirstClear(g, list)
    ensures FirstClear(h, Renamed(f, list))
  {
    var list' := Renamed(f, list);
    ElemsHaveAll(list);
    ConeCorr(g, h, f, list[0]);
    forall i | 0 <= i < |list'| && list'[i] != list'[0] ensures list'[i] !in Cone(h, list'[0]) {
      CorrAt(f, Cone(g, list[0]), Cone(h, list'[0]), list[i]);
    }
  }

  lemma BluestFirstCorr(g: Graph, h: Graph, f: Renaming, list: seq<Id>)
    requires Twins(g, h, f) && AlikeBelow(g, h, f, MAX_ID) && Elems(list) <= f.Keys && list != []
    requires IsBluest(g, Elems(list), list[0])
    ensures Elems(Renamed(f, list)) <= h.Keys && IsBluest(h, Elems(Renamed(f, list)), Renamed(f, list)[0])
  {
    RenamedElems(f, list);
    BluestCorr(g, h, f, MAX_ID, Elems(list), Elems(Renamed(f, list)), list[0]);
  }

  /** The verdict on a list does not depend on ids. */
  lemma PassesCorr(g: Graph, h: Graph, f: Renaming, list: seq<Id>, priority: int)
    requires Twins(g, h, f) && AlikeBelow(g, h, f, MAX_ID) && Passes(g, list, priority)
    ensures Passes(h, Renamed(f, list), priority)
  {
    LowPrioritiesCorr(g, h, f, list);
    LayersCorr(g, h, f, list);
    LegalityCorr(g, h, f, list);
    FirstClearCorr(g, h, f, list);
    BluestFirstCorr(g, h, f, list);
  }

  // ---------------------------------------------------------------- two nodes

  /** The blocks of `h` that are also in `part`. */
  ghost function Image(part: Graph, h: Graph): set<Id> {
    set y | y in h && SigAt(h, y) in Blocks(part)
  }

  /** If `h` has all blocks of `part`, it has them with their parents. */
  lemma ImageIsPast(part: Graph, h: Graph)
    requires DistinctHashes(h) && Blocks(part) <= Blocks(h)
    ensures IsPast(h, Image(part, h))
  {
    forall y, q | y in Image(part, h) && q in h[y].parents ensures q in Image(part, h) {
      ParentInImage(part, h, y, q);
    }
  }

  lemma ParentInImage(part: Graph, h: Graph, y: Id, q: Id)
    requires DistinctHashes(h) && Blocks(part) <= Blocks(h) && y in h
    requires SigAt(h, y) in Blocks(part) && q in h[y].parents
    ensures q in Image(part, h)
  {
    var x :| x in part && SigAt(part, x) == SigAt(h, y);
    assert h[q].hash in ParentHashes(part, x);
    var p :| p in part[x].parents && part[p].hash == h[q].hash;
    assert SigAt(part, p) in Blocks(h);
    var z :| z in h && SigAt(h, z) == SigAt(part, p);
    assert SameHash(h, z, q);
  }

  lemma ImageIsInside(part: Graph, h: Graph, image: Graph)
    requires image.Keys == Image(part, h) && Within(image, h)
    ensures Blocks(image) <= Blocks(part)
  {
    forall y | y in image ensures SigAt(image, y) in Blocks(part) {
      SameSigs(image, h, y);
      assert y in Image(part, h);
    }
  }

  lemma PartIsInside(part: Graph, h: Graph, image: Graph)
    requires Blocks(part) <= Blocks(h) && image.Keys == Image(part, h) && Within(image, h)
    ensures Blocks(part) <= Blocks(image)
  {
    forall x | x in part ensures SigAt(part, x) in Blocks(image) {
      assert SigAt(part, x) in Blocks(h);
      var y :| y in h && SigAt(h, y) == SigAt(part, x);
      assert y in Image(part, h);
      SameSigs(image, h, y);
    }
  }

  lemma ListsMatch(g: Graph, h: Graph, f: Renaming, list: seq<Id>, list': seq<Id>)
    requires Twins(g, h, f) && Elems(list) <= f.Keys && |list'| == |list| && DistinctHashes(h) && Known(h, list')
    requires forall i :: 0 <= i < |list| ==> list[i] in g && g[list[i]].hash == h[list'[i]].hash
    ensures list' == Renamed(f, list)
  {
    forall i | 0 <= i < |list| ensures list'[i] == Renamed(f, list)[i] {
      ElemsHaveAll(list);
      TwinOf(g, h, f, list[i]);
      assert SameHash(h, list'[i], f[list[i]]);
    }
  }

  /** A list that passes at one node passes at every node that has the parents and their pasts. */
  lemma PassesThere(g: Graph, h: Graph, k: nat, list: seq<Id>, list': seq<Id>, priority: int)
    requires Wf(g, k) && Wf(h, k) && Passes(g, list, priority) && Known(h, list') && |list'| == |list|
    requires forall i :: 0 <= i < |list| ==> list[i] in g && g[list[i]].hash == h[list'[i]].hash
    requires forall x :: x in PastOf(g, Elems(list)) && x in g ==> SigAt(g, x) in Blocks(h)
    ensures Passes(h, list', priority)
  {
    var part, image := PartsFor(g, h, k, list, list');
    PassesFrame(part, g, list, priority);
    PassesInImage(part, image, k, list, list', priority);
    PassesFrame(image, h, list', priority);
  }

  lemma PartsFor(g: Graph, h: Graph, k: nat, list: seq<Id>, list': seq<Id>) returns (part: Graph, image: Graph)
    requires Wf(g, k) && Wf(h, k) && Known(h, list') && |list'| == |list| && Elems(list) <= g.Keys
    requires forall i :: 0 <= i < |list| ==> list[i] in g && g[list[i]].hash == h[list'[i]].hash
    requires forall x :: x in PastOf(g, Elems(list)) && x in g ==> SigAt(g, x) in Blocks(h)
    ensures Within(part, g) && Within(image, h) && Wf(part, k) && Wf(image, k) && Blocks(image) == Blocks(part)
    ensures Known(part, list) && Known(image, list')
    ensures forall i :: 0 <= i < |list| ==> list[i] in part && part[list[i]].hash == image[list'[i]].hash
  {
    PastIsPast(g, Elems(list));
    part, image := Counterparts(g, h, k, PastOf(g, Elems(list)));
    ListsInside(g, h, part, image, list, list');
  }

  /** A past of one graph and the same blocks in the other one. */
  lemma Counterparts(g: Graph, h: Graph, k: nat, s: set<Id>) returns (part: Graph, image: Graph)
    requires Wf(g, k) && Wf(h, k) && IsPast(g, s) && forall x :: x in s ==> SigAt(g, x) in Blocks(h)
    ensures part.Keys == s && Within(part, g) && Within(image, h) && Wf(part, k) && Wf(image, k)
    ensures Blocks(part) <= Blocks(h) && image.Keys == Image(part, h) && Blocks(image) == Blocks(part)
  {
    part := Part(g, s);
    PartIsKnown(g, h, part);
    ImageIsPast(part, h);
    image := Part(h, Image(part, h));
    ImageIsInside(part, h, image);
    PartIsInside(part, h, image);
    WfRestrict(part, g, k);
    WfRestrict(image, h, k);
  }

  lemma PassesInImage(part: Graph, image: Graph, k: nat, list: seq<Id>, list': seq<Id>, priority: int)
    requires Wf(part, k) && Wf(image, k) && Blocks(image) == Blocks(part) && Passes(part, list, priority)
    requires Known(image, list') && |list'| == |list|
    requires forall i :: 0 <= i < |list| ==> list[i] in part && part[list[i]].hash == image[list'[i]].hash
    ensures Passes(image, list', priority)
  {
    EqualSetsAreSameBlocks(part, image);
    var f := RenamingOf(part, image);
    RenamingIsTwins(part, image, f);
    AllAlike(part, image, f, MAX_ID, k);
    ListsMatch(part, image, f, list, list');
    PassesCorr(part, image, f, list, priority);
  }

  lemma PastIsPast(g: Graph, ps: set<Id>)
    requires ps <= g.Keys
    ensures IsPast(g, PastOf(g, ps)) && ps <= PastOf(g, ps)
  {
    PastOfBounds(g, ps);
    forall x, p | x in PastOf(g, ps) && p in g[x].parents ensures p in PastOf(g, ps) {
      PastOfHasParents(g, ps, x, p);
    }
  }

  lemma PartIsKnown(g: Graph, h: Graph, part: Graph)
    requires Within(part, g) && forall x :: x in part ==> x in g && SigAt(g, x) in Blocks(h)
    ensures Blocks(part) <= Blocks(h)
  {
    forall x | x in part ensures SigAt(part, x) in Blocks(h) {
      SameSigs(part, g, x);
    }
  }

  /** The two lists lie in the two parts. */
  lemma ListsInside(g: Graph, h: Graph, part: Graph, image: Graph, list: seq<Id>, list': seq<Id>)
    requires Within(part, g) && Within(image, h) && image.Keys == Image(part, h) && Blocks(part) <= Blocks(h)
    requires DistinctHashes(h) && |list'| == |list| && Known(h, list') && Elems(list) <= part.Keys
    requires forall i :: 0 <= i < |list| ==> list[i] in g && g[list[i]].hash == h[list'[i]].hash
    ensures Known(part, list) && Known(image, list')
    ensures forall i :: 0 <= i < |list| ==> list[i] in part && part[list[i]].hash == image[list'[i]].hash
  {
    ElemsHaveAll(list);
    forall i | 0 <= i < |list| ensures list'[i] in image {
      assert list[i] in part && SigAt(part, list[i]) in Blocks(h);
      var y :| y in h && SigAt(h, y) == SigAt(part, list[i]);
      assert SameHash(h, y, list'[i]);
    }
  }
}
