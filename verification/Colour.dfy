/** Colouring a new block's diff-anticone and computing its record. */
module Colour {
  import opened Dag
  import opened Blue
  import opened DiffOrder
  import opened DiffAnticone
  import opened Spec

  // ---------------------------------------------------------------- the K-chain, declaratively

  ghost function BlueSizes(g: Graph, s: seq<Id>): nat
    requires forall i :: 0 <= i < |s| ==> s[i] in g
  {
    if s == [] then 0 else |g[s[0]].blue| + BlueSizes(g, s[1..])
  }

  lemma ChainIsInside(g: Graph, c: Id)
    requires c in g
    ensures forall i :: 0 <= i < |Chain(g, c)| ==> Chain(g, c)[i] in g
  {
    ChainBounds(g, c);
    ConeBounds(g, c);
  }

  /** Whether the walk may end after `n` blocks of `c`'s chain, having counted
      `count` blue blocks over `deep` blocks before. */
  ghost predicate MayEnd(g: Graph, k: nat, c: Id, count: nat, deep: nat, n: nat)
    requires c in g && n <= |Chain(g, c)|
  {
    ChainIsInside(g, c);
    || n == |Chain(g, c)|
    || (deep + n > 2 * MAX_TIP_LAYER_GAP && count + n + BlueSizes(g, Chain(g, c)[..n]) > k)
  }

  lemma MayEndOne(g: Graph, k: nat, c: Id, count: nat, deep: nat)
    requires c in g
    ensures MayEnd(g, k, c, count, deep, 1) <==>
      c == 0 || (count + 1 + |g[c].blue| > k && deep + 1 > 2 * MAX_TIP_LAYER_GAP)
  {
    ChainIsInside(g, c);
    assert Chain(g, c)[..1] == [c];
    assert BlueSizes(g, [c]) == |g[c].blue|;
    assert c != 0 ==> Chain(g, c)[1] == g[c].mainParent;
  }

  lemma MayEndMore(g: Graph, k: nat, c: Id, count: nat, deep: nat, j: nat)
    requires c in g && c != 0 && 1 < j <= |Chain(g, c)|
    ensures MayEnd(g, k, c, count, deep, j) <==>
      MayEnd(g, k, g[c].mainParent, count + 1 + |g[c].blue|, deep + 1, j - 1)
  {
    ChainIsInside(g, c);
    ChainIsInside(g, g[c].mainParent);
    var tail := Chain(g, g[c].mainParent)[..j - 1];
    assert Chain(g, c)[..j] == [c] + tail;
    BlueSizesCons(g, c, tail);
  }

  lemma BlueSizesCons(g: Graph, c: Id, tail: seq<Id>)
    requires c in g && forall i :: 0 <= i < |tail| ==> tail[i] in g
    ensures BlueSizes(g, [c] + tail) == |g[c].blue| + BlueSizes(g, tail)
  {
    assert ([c] + tail)[1..] == tail;
  }

  /** The K-chain is the shortest nonempty prefix of the main-parent chain after which the walk may end. */
  lemma {:induction false} KSegmentIsShortest(g: Graph, k: nat, c: Id, count: nat, deep: nat)
    requires c in g
    ensures var n := |KSegment(g, k, c, count, deep)|;
      && 1 <= n <= |Chain(g, c)| && KSegment(g, k, c, count, deep) == Chain(g, c)[..n]
      && MayEnd(g, k, c, count, deep, n)
      && forall j :: 1 <= j < n ==> !MayEnd(g, k, c, count, deep, j)
    decreases c
  {
    MayEndOne(g, k, c, count, deep);
    if !MayEnd(g, k, c, count, deep, 1) {
      KSegmentIsShortest(g, k, g[c].mainParent, count + 1 + |g[c].blue|, deep + 1);
      forall j | 1 < j <= |KSegment(g, k, c, count, deep)|
        ensures MayEnd(g, k, c, count, deep, j) <==>
                MayEnd(g, k, g[c].mainParent, count + 1 + |g[c].blue|, deep + 1, j - 1)
      {
        MayEndMore(g, k, c, count, deep, j);
      }
    }
  }

  /** The K-chain has `n` blocks besides the block itself: it may end there and nowhere earlier.  It ends with
      block 0, or when with the block itself more than 20 blocks have been taken and more than `k` blue ones
      counted, namely those blocks and what is blue in their diff-anticones. */
  ghost predicate KLength(g: Graph, k: nat, mp: Id, n: nat)
    requires mp in g
  {
    var chain := Chain(g, mp);
    ChainIsInside(g, mp);
    && 1 <= n <= |chain|
    && (n == |chain| || (1 + n > 20 && 1 + n + BlueSizes(g, chain[..n]) > k))
    && forall j {:trigger chain[..j]} :: 1 <= j < n ==> 1 + j <= 20 || 1 + j + BlueSizes(g, chain[..j]) <= k
  }

  /** The K-chain of a block is the beginning of its main parent's chain with that length. */
  lemma KChainIs(g: Graph, k: nat, mp: Id)
    requires mp in g
    ensures KLength(g, k, mp, |KChain(g, k, mp)|)
    ensures KChain(g, k, mp) == Chain(g, mp)[..|KChain(g, k, mp)|]
  {
    KSegmentIsShortest(g, k, mp, 1, 1);
    var n := |KChain(g, k, mp)|;
    forall j | 1 <= j < n
      ensures 1 + j <= 20 || (ChainIsInside(g, mp); 1 + j + BlueSizes(g, Chain(g, mp)[..j]) <= k)
    {
      assert !MayEnd(g, k, mp, 1, 1, j);
    }
  }

  lemma KLengthUnique(g: Graph, k: nat, mp: Id, n: nat)
    requires mp in g && KLength(g, k, mp, n)
    ensures n == |KChain(g, k, mp)|
  {
    KChainIs(g, k, mp);
    if n != |KChain(g, k, mp)| {
      assert false;
    }
  }

  /** A block is blue for another one iff their main-parent chains meet within that length. */
  lemma BlueIff(g: Graph, k: nat, b: Id, x: Id, n: nat)
    requires Wf(g, k) && b in g && x in g[b].Diff() && b != 0 && KLength(g, k, g[b].mainParent, n)
    ensures x in g && n <= |Chain(g, g[b].mainParent)|
    ensures x in g[b].blue <==>
      exists i, j :: 0 <= i < |Chain(g, x)| && 0 <= j < n && Chain(g, x)[i] == Chain(g, g[b].mainParent)[j]
  {
    var mp := g[b].mainParent;
    ColourFacts(g, k, b, x);
    KChainIs(g, k, mp);
    KLengthUnique(g, k, mp, n);
    var chain, seg := Chain(g, x), KChain(g, k, mp);
    if BlueFor(g, k, mp, x) {
      var c :| c in chain && c in seg;
      var i :| 0 <= i < |chain| && chain[i] == c;
      var j :| 0 <= j < n && seg[j] == c;
      assert chain[i] == Chain(g, mp)[j];
    }
    if i, j :| 0 <= i < |chain| && 0 <= j < n && chain[i] == Chain(g, mp)[j] {
      assert chain[i] in chain && seg[j] in seg;
    }
  }

  // ---------------------------------------------------------------- the cumulative blue past

  ghost function BluePast(g: Graph, b: Id): set<Id>
    requires b in g
    decreases b
  {
    {b} + g[b].blue.Keys + if b == 0 then {} else BluePast(g, g[b].mainParent)
  }

  /** The blue number counts the blue blocks of the whole past. */
  lemma {:induction false} BlueNumCounts(g: Graph, k: nat, b: Id)
    requires Wf(g, k) && b in g
    ensures BluePast(g, b) <= Cone(g, b) && |BluePast(g, b)| == g[b].blueNum + 1
    decreases b
  {
    if b == 0 {
      assert Derived(g, k, 0);
      ConeBounds(g, 0);
      assert BluePast(g, 0) == {0};
    } else {
      var mp := g[b].mainParent;
      BlueNumCounts(g, k, mp);
      assert g[b].blueNum == g[mp].blueNum + 1 + |g[b].blue| by {
        MainParentFacts(g, k, b);
      }
      BluePastGrows(g, k, b);
    }
  }

  lemma BluePastGrows(g: Graph, k: nat, b: Id)
    requires Wf(g, k) && b in g && b != 0
    requires BluePast(g, g[b].mainParent) <= Cone(g, g[b].mainParent)
    ensures BluePast(g, b) <= Cone(g, b) && |BluePast(g, b)| == |BluePast(g, g[b].mainParent)| + |g[b].blue| + 1
  {
    ConeSplit(g, k, b);
    CountThree(Cone(g, b), Cone(g, g[b].mainParent), g[b].Diff(), b,
               BluePast(g, b), BluePast(g, g[b].mainParent), g[b].blue.Keys);
  }

  lemma CountThree(all: set<Id>, cone: set<Id>, diff: set<Id>, b: Id, picked: set<Id>, low: set<Id>, blue: set<Id>)
    requires cone !! diff && b !in cone && b !in diff && low <= cone && blue <= diff
    requires all == cone + diff + {b} && picked == {b} + blue + low
    ensures picked <= all && |picked| == |low| + |blue| + 1
  {
    assert picked == (low + blue) + {b};
  }

  // ---------------------------------------------------------------- the code

  /** Walks down from the new block `self`, whose main parent is `mp`. */
  method GetKChain(g: Graph, k: nat, self: Id, mp: Id) returns (blocks: set<Id>, miniLayer: nat)
    requires mp in g
    ensures blocks == {self} + Elems(KChain(g, k, mp))
    ensures var seg := KChain(g, k, mp); seg != [] && seg[|seg| - 1] in g && miniLayer == g[seg[|seg| - 1]].layer
    ensures exists n: nat {:trigger KLength(g, k, mp, n)} ::
      && KLength(g, k, mp, n) && blocks == {self} + Elems(Chain(g, mp)[..n])
      && Chain(g, mp)[n - 1] in g && miniLayer == g[Chain(g, mp)[n - 1]].layer
  {
    KChainIs(g, k, mp);
    // The first round takes `self`: one block, no blue diff-anticone yet, and never the last.
    blocks := {self};
    var blueCount: nat, deep: nat, cur := 1, 1, mp;
    ghost var taken := [];
    while true
      invariant cur in g && blocks == {self} + Elems(taken)
      invariant taken + KSegment(g, k, cur, blueCount, deep) == KChain(g, k, mp)
      decreases cur
    {
      blocks := blocks + {cur};
      ElemsSnoc(taken, cur);
      miniLayer := g[cur].layer;
      var total := blueCount + 1 + |g[cur].blue|;
      KSegmentStep(g, k, cur, blueCount, deep, taken);
      taken := taken + [cur];
      if (total > k && deep + 1 > MAX_TIP_LAYER_GAP * 2) || g[cur].mainParent == MAX_ID {
        break;
      }
      blueCount, deep, cur := total, deep + 1, g[cur].mainParent;
    }
  }

  lemma KSegmentStep(g: Graph, k: nat, c: Id, count: nat, deep: nat, taken: seq<Id>)
    requires c in g
    ensures var total := count + 1 + |g[c].blue|;
      if (total > k && deep + 1 > MAX_TIP_LAYER_GAP * 2) || g[c].mainParent == MAX_ID
      then taken + KSegment(g, k, c, count, deep) == taken + [c]
      else taken + KSegment(g, k, c, count, deep) == taken + [c] + KSegment(g, k, g[c].mainParent, total, deep + 1)
  {}

  lemma ElemsSnoc(s: seq<Id>, x: Id)
    ensures Elems(s + [x]) == Elems(s) + {x}
  {
    ElemsAre(s + [x], Elems(s) + {x});
  }

  /** A block of `x`'s main-parent chain is among `blocks`, not below the layer. */
  ghost predicate Meets(g: Graph, x: Id, blocks: set<Id>, miniLayer: nat)
    requires x in g
  {
    exists c :: c in Chain(g, x) && c in blocks && c in g && miniLayer <= g[c].layer
  }

  method ColoringRule(g: Graph, k: nat, blocks: set<Id>, miniLayer: nat, x: Id) returns (blue: bool)
    requires Wf(g, k) && x in g
    ensures blue <==> Meets(g, x, blocks, miniLayer)
  {
    var cur := x;
    while true
      invariant cur in g && (Meets(g, x, blocks, miniLayer) <==> Meets(g, cur, blocks, miniLayer))
      decreases cur
    {
      if g[cur].layer < miniLayer {
        BelowLayer(g, k, cur, blocks, miniLayer);
        return false;
      }
      if cur in blocks {
        assert cur in Chain(g, cur);
        return true;
      }
      if g[cur].mainParent == MAX_ID {
        assert Chain(g, cur) == [0];
        break;
      }
      assert forall c :: c in Chain(g, cur) <==> c == cur || c in Chain(g, g[cur].mainParent);
      cur := g[cur].mainParent;
    }
    return false;
  }

  lemma BelowLayer(g: Graph, k: nat, x: Id, blocks: set<Id>, miniLayer: nat)
    requires Wf(g, k) && x in g && g[x].layer < miniLayer
    ensures !Meets(g, x, blocks, miniLayer)
  {
    forall c | c in Chain(g, x) && c in g ensures g[c].layer < miniLayer {
      ChainInCone(g, x, c);
      if c != x {
        PastIsLower(g, k, x, c);
      }
    }
  }

  /** Stopping at the layer of the lowest K-chain block loses no blue block.  The id
      of the merging block itself can be a fresh one or 0 without harm. */
  lemma MeetsIsBlueFor(g: Graph, k: nat, self: Id, mp: Id, x: Id, miniLayer: nat)
    requires Wf(g, k) && mp in g && x in g && (self !in g || self == 0)
    requires var seg := KChain(g, k, mp); seg != [] && seg[|seg| - 1] in g && miniLayer == g[seg[|seg| - 1]].layer
    ensures Meets(g, x, {self} + Elems(KChain(g, k, mp)), miniLayer) <==> BlueFor(g, k, mp, x)
  {
    var seg := KChain(g, k, mp);
    assert seg[|seg| - 1] in seg;
    if Meets(g, x, {self} + Elems(seg), miniLayer) {
      var c :| c in Chain(g, x) && c in {self} + Elems(seg) && c in g && miniLayer <= g[c].layer;
      if c !in seg {
        GenesisOnSegment(g, k, seg[|seg| - 1]);
        assert false;
      }
    }
    if BlueFor(g, k, mp, x) {
      var c :| c in Chain(g, x) && c in seg;
      KChainLayers(g, k, mp, c);
      assert c in {self} + Elems(seg);
    }
  }

  lemma GenesisOnSegment(g: Graph, k: nat, last: Id)
    requires Wf(g, k) && last in g
    ensures 0 in g && (g[last].layer <= g[0].layer ==> last == 0)
  {
    GenesisInCone(g, last);
    if last != 0 {
      PastIsLower(g, k, last, 0);
    }
  }

  lemma {:induction false} KSegmentIsPrefix(g: Graph, k: nat, c: Id, count: nat, deep: nat)
    requires c in g
    ensures KSegment(g, k, c, count, deep) != [] && KSegment(g, k, c, count, deep) <= Chain(g, c)
    decreases c
  {
    var total := count + 1 + |g[c].blue|;
    KSegmentUnfold(g, k, c, count, deep, total);
    if c != 0 {
      KSegmentIsPrefix(g, k, g[c].mainParent, total, deep + 1);
    }
  }

  lemma KChainLayers(g: Graph, k: nat, mp: Id, c: Id)
    requires Wf(g, k) && mp in g && c in KChain(g, k, mp)
    ensures c in g && var seg := KChain(g, k, mp); seg[|seg| - 1] in g && g[seg[|seg| - 1]].layer <= g[c].layer
  {
    var seg := KChain(g, k, mp);
    KSegmentIsPrefix(g, k, mp, 1, 1);
    var i :| 0 <= i < |seg| && seg[i] == c;
    var last := seg[|seg| - 1];
    ChainLater(g, mp, i, |seg| - 1);
    ChainInCone(g, c, last);
    if last != c {
      PastIsLower(g, k, c, last);
    }
  }

  /** Splits the diff-anticone into blue and red. */
  method CalculateBlueSet(g: Graph, k: nat, self: Id, mp: Id, diff: set<Id>) returns (blue: set<Id>, red: set<Id>)
    requires Wf(g, k) && mp in g && diff <= g.Keys && (self !in g || self == 0)
    ensures blue == BlueSet(g, k, mp, diff) && red == diff - blue
  {
    var blocks, miniLayer := GetKChain(g, k, self, mp);
    blue, red := {}, {};
    var rest := diff;
    while rest != {}
      invariant rest <= diff
      invariant forall x :: x in blue <==> x in diff && x !in rest && BlueFor(g, k, mp, x)
      invariant forall x :: x in red <==> x in diff && x !in rest && !BlueFor(g, k, mp, x)
    {
      var x :| x in rest;
      rest := rest - {x};
      var isBlue := ColoringRule(g, k, blocks, miniLayer, x);
      MeetsIsBlueFor(g, k, self, mp, x, miniLayer);
      if isBlue {
        blue := blue + {x};
      } else {
        red := red + {x};
      }
    }
  }

  // ---------------------------------------------------------------- the record of a new block

  method MaxParentLayer(g: Graph, parents: set<Id>) returns (maxLayer: nat)
    requires parents <= g.Keys && parents != {}
    ensures forall p :: p in parents ==> g[p].layer <= maxLayer
    ensures exists p :: p in parents && g[p].layer == maxLayer
  {
    maxLayer := 0;
    var rest := parents;
    while rest != {}
      invariant rest <= parents
      invariant forall p :: p in parents && p !in rest ==> g[p].layer <= maxLayer
      invariant rest != parents ==> exists p :: p in parents && g[p].layer == maxLayer
      invariant rest == parents ==> maxLayer == 0
    {
      var p :| p in rest;
      rest := rest - {p};
      if maxLayer == 0 || maxLayer < g[p].layer {
        maxLayer := g[p].layer;
      }
    }
  }

  /** The blue number of a block with these parents, for whatever the search for
      its diff-anticone finds. */
  ghost function BlueNumFor(g: Graph, k: nat, parents: set<Id>, mp: Id): nat
    requires parents <= g.Keys && mp in parents
  {
    PastOfBounds(g, parents);
    g[mp].blueNum + 1 + |BlueSet(g, k, mp, DiffOf(g, parents, mp) + (parents - {mp}))|
  }

  ghost predicate RecordOk(g: Graph, k: nat, n: Node)
    requires DistinctHashes(g) && n.parents <= g.Keys
  {
    MainParentOk(g, n) && DiffOk(g, n) && ColourOk(g, k, n) && OrderOk(g, n)
  }

  /** What is made of the blocks the search finds, whether or not they are the diff-anticone. */
  ghost predicate Coloured(g: Graph, k: nat, n: Node)
    requires DistinctHashes(g) && n.parents <= g.Keys
  {
    && MainParentOk(g, n) && n.Diff() <= g.Keys
    && n.Diff() == DiffOf(g, n.parents, n.mainParent) + (n.parents - {n.mainParent})
    && ColourOk(g, k, n) && OrderOk(g, n)
  }

  /** Orders a coloured diff-anticone and writes the positions into its two halves. */
  method OrderDiffAnticone(g: Graph, parents: set<Id>, mp: Id, blueSet: set<Id>, redSet: set<Id>)
    returns (blue: map<Id, nat>, red: map<Id, nat>)
    requires DistinctHashes(g) && parents <= g.Keys && mp in parents
    requires blueSet !! redSet && Found(g, parents, mp, blueSet + redSet) && blueSet + redSet <= g.Keys
    ensures blue.Keys == blueSet && red.Keys == redSet
    ensures Numbered(blue, red, DiffSeq(g, parents, mp, blueSet, blueSet + redSet))
  {
    var diff := blueSet + redSet;
    var order := GetDiffAnticoneOrder(g, parents, mp, blueSet, diff);
    DiffSeqIsTopologicalPermutation(g, parents, mp, blueSet, diff);
    TopologicalMembers(g, diff, order);
    blue, red := UpdateBlockOrder(order, blueSet, redSet);
  }

  /** Finds and colours the diff-anticone of a block with these parents. */
  method ColourDiffAnticone(g: Graph, k: nat, self: Id, parents: set<Id>, mp: Id)
    returns (blueSet: set<Id>, redSet: set<Id>, ghost found: set<Id>)
    requires Wf(g, k) && (self !in g || self == 0) && parents <= g.Keys && mp in parents
    ensures found == DiffOf(g, parents, mp) + (parents - {mp}) && found <= g.Keys
    ensures blueSet == BlueSet(g, k, mp, found) && redSet == found - blueSet
  {
    var diff := GetDiffAnticone(g, k, parents, mp);
    PastOfBounds(g, parents);
    blueSet, redSet := CalculateBlueSet(g, k, self, mp, diff);
    found := diff;
  }

  /** `b` and `hash` are new to the graph, and `b` comes after all ids in it. */
  ghost predicate IsNew(g: Graph, b: Id, hash: nat)
  {
    0 < b < MAX_ID && b !in g && (forall x :: x in g ==> x < b) && forall x :: x in g ==> g[x].hash != hash
  }

  /** Everything that is fixed when a block with parents is added.  The graph stays well formed exactly
      when no other parent lies in the past of the bluest one. */
  method MakeNode(g: Graph, k: nat, b: Id, hash: nat, priority: int, parents: set<Id>) returns (n: Node)
    requires Wf(g, k) && IsNew(g, b, hash) && parents <= g.Keys && parents != {}
    ensures n.hash == hash && n.priority == priority && n.parents == parents && n.mainParent in parents
    ensures Coloured(g, k, n)
    ensures n.mainParent == Bluest(g, parents) && n.blueNum == BlueNumFor(g, k, parents, Bluest(g, parents))
    ensures Closed(g[b := n]) && (Wf(g[b := n], k) <==> MainClear(g, parents, Bluest(g, parents)))
    ensures forall p :: p in parents ==> g[p].blueNum <= g[n.mainParent].blueNum
    ensures forall p :: p in parents && g[p].blueNum == g[n.mainParent].blueNum ==>
      g[p].priority <= g[n.mainParent].priority
    ensures forall p ::
      p in parents && g[p].blueNum == g[n.mainParent].blueNum && g[p].priority == g[n.mainParent].priority ==>
        g[n.mainParent].hash <= g[p].hash
    ensures n.height == g[n.mainParent].height + 1 && forall p :: p in parents ==> g[p].layer < n.layer
    ensures exists p :: p in parents && n.layer == g[p].layer + 1
  {
    n := MakeRecord(g, k, b, hash, priority, parents);
    BluestIsTop(g, parents, n.mainParent);
    WfIffClear(g, k, b, n);
  }

  lemma WfIffClear(g: Graph, k: nat, b: Id, n: Node)
    requires Wf(g, k) && IsNew(g, b, n.hash) && n.parents <= g.Keys && n.mainParent in n.parents && Coloured(g, k, n)
    ensures Closed(g[b := n]) && (Wf(g[b := n], k) <==> MainClear(g, n.parents, n.mainParent))
  {
    StillClosed(g, n, b);
    SearchIsExactIff(g, n.parents, n.mainParent);
    if MainClear(g, n.parents, n.mainParent) {
      Extends(g, g[b := n], k, b, n);
    }
    if Wf(g[b := n], k) {
      DiffInside(g, g[b := n], k, b, n);
    }
  }

  lemma DiffInside(g: Graph, h: Graph, k: nat, b: Id, n: Node)
    requires Wf(h, k) && Within(g, h) && b in h && b != 0 && h[b] == n
    requires n.parents <= g.Keys && n.mainParent in n.parents
    ensures n.Diff() == DiffOf(g, n.parents, n.mainParent)
  {
    DiffFacts(h, k, b);
    DiffOfFrame(g, h, n.parents, n.mainParent);
  }

  method MakeRecord(g: Graph, k: nat, b: Id, hash: nat, priority: int, parents: set<Id>) returns (n: Node)
    requires Wf(g, k) && b !in g && parents <= g.Keys && parents != {}
    ensures n.hash == hash && n.priority == priority && n.parents == parents && n.mainParent in parents
    ensures Coloured(g, k, n)
    ensures n.mainParent == Bluest(g, parents) && n.blueNum == BlueNumFor(g, k, parents, Bluest(g, parents))
  {
    var layer := MaxParentLayer(g, parents);
    var mp := GetBluest(g, parents);
    BluestUnique(g, parents, mp, Bluest(g, parents));
    ghost var diff;
    var blueSet, redSet;
    blueSet, redSet, diff := ColourDiffAnticone(g, k, b, parents, mp);
    assert blueSet + redSet == diff;
    var blue, red := OrderDiffAnticone(g, parents, mp, blueSet, redSet);
    n := Node(hash, priority, parents, mp, layer + 1, g[mp].height + 1, g[mp].blueNum + 1 + |blueSet|, blue, red);
    assert |blue| == |blue.Keys|;
    AssembleMainParent(g, n, layer);
    Assemble(g, k, n, diff, blueSet);
  }

  lemma StillClosed(g: Graph, n: Node, b: Id)
    requires DistinctHashes(g) && IsNew(g, b, n.hash) && n.parents <= g.Keys && n.mainParent in n.parents
    ensures Closed(g[b := n]) && DistinctHashes(g[b := n])
    ensures g[b := n].Keys == g.Keys + {b} && Within(g, g[b := n])
  {
    WithOneMore(g, b, n);
    var h := g[b := n];
    forall x, y | x in h && y in h && SameHash(h, x, y) ensures x == y {
      if x != b && y != b {
        assert SameHash(g, x, y);
      }
    }
  }

  lemma AssembleMainParent(g: Graph, n: Node, layer: nat)
    requires n.parents <= g.Keys && IsBluest(g, n.parents, n.mainParent)
    requires n.height == g[n.mainParent].height + 1 && n.layer == layer + 1
    requires forall p :: p in n.parents ==> g[p].layer <= layer
    requires exists p :: p in n.parents && g[p].layer == layer
    ensures MainParentOk(g, n)
  {
    var p :| p in n.parents && g[p].layer == layer;
    assert n.layer == g[p].layer + 1;
  }

  lemma Assemble(g: Graph, k: nat, n: Node, diff: set<Id>, blueSet: set<Id>)
    requires DistinctHashes(g) && n.parents <= g.Keys && MainParentOk(g, n)
    requires diff == DiffOf(g, n.parents, n.mainParent) + (n.parents - {n.mainParent}) && diff <= g.Keys
    requires blueSet == BlueSet(g, k, n.mainParent, diff) && blueSet <= diff
    requires n.blue.Keys == blueSet && n.Diff() == diff
    requires n.blueNum == g[n.mainParent].blueNum + 1 + |n.blue|
    requires Numbered(n.blue, n.red, DiffSeq(g, n.parents, n.mainParent, blueSet, diff))
    ensures Coloured(g, k, n)
  {
    assert ColourOk(g, k, n);
    assert OrderOk(g, n);
  }

  /** A block record on top of a well-formed graph. */
  lemma Extends(g: Graph, h: Graph, k: nat, b: Id, n: Node)
    requires Wf(g, k) && Within(g, h) && DistinctHashes(h)
    requires b !in g && b != 0 && h.Keys == g.Keys + {b} && h[b] == n && n.parents <= g.Keys && RecordOk(g, k, n)
    ensures Wf(h, k)
  {
    MainParentOkFrame(g, h, n);
    DiffOkFrame(g, h, n);
    ColourOkFrame(g, h, k, n);
    OrderOkFrame(g, h, n);
    WfExtend(g, h, k, b);
  }

  /** What a block with these parents would have as its blue number, without adding it. */
  method GetBlues(g: Graph, k: nat, parents: set<Id>) returns (blueNum: nat)
    requires Wf(g, k)
    ensures parents == {} || !(parents <= g.Keys) ==> blueNum == 0
    ensures parents != {} && parents <= g.Keys ==> blueNum == BlueNumFor(g, k, parents, Bluest(g, parents))
  {
    if parents == {} || !(forall p :: p in parents ==> p in g) {
      return 0;
    }
    var mp := GetBluest(g, parents);
    BluestUnique(g, parents, mp, Bluest(g, parents));
    var blue, _, _ := ColourDiffAnticone(g, k, 0, parents, mp);
    blueNum := g[mp].blueNum + 1 + |blue|;
  }
}
