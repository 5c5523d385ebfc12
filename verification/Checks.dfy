/** The tests a list of parents has to pass before a block is added. */
module Checks {
  import opened Dag
  import opened Blue
  import opened Spec
  import opened DiffAnticone
  import opened Anticone
  import opened DiffOrder

  predicate Known(g: map<Id, Node>, parents: seq<Id>) {
    forall i :: 0 <= i < |parents| ==> parents[i] in g
  }

  /** How many of the parents have at most priority 1. */
  function LowPriorities(g: map<Id, Node>, parents: seq<Id>): nat
    requires Known(g, parents)
  {
    if parents == [] then 0
    else (if g[parents[0]].priority <= 1 then 1 else 0) + LowPriorities(g, parents[1..])
  }

  predicate PriorityOk(g: map<Id, Node>, parents: seq<Id>, priority: int)
    requires Known(g, parents)
  {
    priority > 0 && priority >= LowPriorities(g, parents)
  }

  /** No two parents are further apart than the gap. */
  predicate LayerGapOk(g: map<Id, Node>, parents: seq<Id>)
    requires Known(g, parents)
  {
    parents != [] &&
    forall i, j :: 0 <= i < |parents| && 0 <= j < |parents| ==>
      g[parents[i]].layer - g[parents[j]].layer <= MAX_TIP_LAYER_GAP
  }

  /** No parent is a direct parent or child of another one. */
  predicate LegalityOk(g: map<Id, Node>, parents: seq<Id>)
    requires Known(g, parents)
  {
    parents != [] &&
    (|parents| > 1 ==>
      forall i, j :: 0 <= i < |parents| && 0 <= j < |parents| ==> parents[j] !in g[parents[i]].parents)
  }

  /** No other parent lies in the past of the first one. */
  ghost predicate FirstClear(g: Graph, parents: seq<Id>)
    requires Known(g, parents) && parents != []
  {
    forall i :: 0 <= i < |parents| && parents[i] != parents[0] ==> parents[i] !in Cone(g, parents[0])
  }

  method CheckPriority(g: map<Id, Node>, parents: seq<Id>, priority: int) returns (ok: bool)
    requires Known(g, parents)
    ensures ok <==> PriorityOk(g, parents, priority)
    ensures ok <==> priority > 0 && |set i | 0 <= i < |parents| && g[parents[i]].priority <= 1| <= priority
  {
    if priority <= 0 {
      return false;
    }
    var low := 0;
    ghost var lows := {};
    for i := 0 to |parents|
      invariant low + LowPriorities(g, parents[i..]) == LowPriorities(g, parents)
      invariant lows == (set j | 0 <= j < i && g[parents[j]].priority <= 1) && |lows| == low
    {
      assert parents[i..][1..] == parents[i + 1..];
      if g[parents[i]].priority <= 1 {
        low, lows := low + 1, lows + {i};
      }
    }
    ok := priority >= low;
  }

  /** Compares the lowest and the highest layer among the parents; one or two are compared at once. */
  method CheckLayerGap(g: map<Id, Node>, parents: seq<Id>) returns (ok: bool)
    requires Known(g, parents)
    ensures ok <==> LayerGapOk(g, parents)
  {
    if |parents| == 0 {
      return false;
    } else if |parents| == 1 {
      return true;
    } else if |parents| == 2 {
      var gap := g[parents[0]].layer - g[parents[1]].layer;
      return (if gap < 0 then -gap else gap) <= MAX_TIP_LAYER_GAP;
    }
    var minLayer, maxLayer := -1, -1;
    ghost var lo, hi := 0, 0;
    for i := 0 to |parents|
      invariant i == 0 ==> minLayer == -1 && maxLayer == -1
      invariant lo < |parents| && hi < |parents|
      invariant i > 0 ==> minLayer == g[parents[lo]].layer && maxLayer == g[parents[hi]].layer
      invariant forall j :: 0 <= j < i ==> minLayer <= g[parents[j]].layer <= maxLayer
    {
      var layer := g[parents[i]].layer;
      if maxLayer == -1 || layer > maxLayer {
        maxLayer, hi := layer, i;
      }
      if minLayer == -1 || layer < minLayer {
        minLayer, lo := layer, i;
      }
    }
    ok := maxLayer - minLayer <= MAX_TIP_LAYER_GAP;
  }

  /** Looks for a parent or a child of a parent among the parents. */
  method CheckLegality(g: Graph, children: map<Id, set<Id>>, parents: seq<Id>) returns (ok: bool)
    requires Inverse(g, children) && Known(g, parents)
    ensures ok <==> LegalityOk(g, parents)
  {
    if |parents| == 0 {
      return false;
    } else if |parents| == 1 {
      return true;
    }
    var all := set x | x in parents;
    for i := 0 to |parents|
      invariant forall a, b :: 0 <= a < i && 0 <= b < |parents| ==> parents[b] !in g[parents[a]].parents
    {
      if g[parents[i]].parents * all != {} {
        var x :| x in g[parents[i]].parents * all;
        var j :| 0 <= j < |parents| && parents[j] == x;
        return false;
      }
      if children[parents[i]] * all != {} {
        var x :| x in children[parents[i]] * all;
        var j :| 0 <= j < |parents| && parents[j] == x;
        assert parents[i] in g[parents[j]].parents;
        return false;
      }
      forall b | 0 <= b < |parents| ensures parents[b] !in g[parents[i]].parents {
        assert parents[b] in all;
        assert parents[b] !in g[parents[i]].parents * all;
      }
    }
    return true;
  }

  /** The parents other than the first, and a bound below their layers. */
  method OtherParents(g: Graph, parents: seq<Id>) returns (ops: set<Id>, minLayer: nat)
    requires Known(g, parents) && parents != []
    ensures ops == Elems(parents) - {parents[0]}
    ensures forall x :: x in ops ==> x in g && minLayer <= g[x].layer
  {
    ops, minLayer := {}, 0xFFFF_FFFF;
    for i := 0 to |parents|
      invariant ops == Elems(parents[..i]) - {parents[0]}
      invariant forall x :: x in ops ==> x in g && minLayer <= g[x].layer
    {
      assert parents[..i + 1] == parents[..i] + [parents[i]];
      ElemsAre(parents[..i + 1], Elems(parents[..i]) + {parents[i]});
      if parents[i] != parents[0] {
        if g[parents[i]].layer < minLayer {
          minLayer := g[parents[i]].layer;
        }
        ops := ops + {parents[i]};
      }
    }
    assert parents[..|parents|] == parents;
  }

  /** Reads the first parent's closed past along its main-parent chain, a
      bounded number of blocks beyond the lowest layer that matters. */
  method IsDag(g: Graph, k: nat, parents: seq<Id>) returns (ok: bool)
    requires Wf(g, k) && Known(g, parents)
    ensures parents == [] ==> !ok
    ensures parents != [] ==> (ok <==> FirstClear(g, parents))
  {
    if |parents| == 0 {
      return false;
    } else if |parents| == 1 {
      return true;
    }
    var ops, minLayer := OtherParents(g, parents);
    var mainsub := ReadBounded(g, k, parents[0], minLayer);
    ok := ops * mainsub == {};
    OutsideIff(g, parents, ops, mainsub);
  }

  lemma OutsideIff(g: Graph, parents: seq<Id>, ops: set<Id>, mainsub: set<Id>)
    requires Known(g, parents) && parents != [] && ops == Elems(parents) - {parents[0]}
    requires mainsub <= Cone(g, parents[0])
    requires forall x :: x in ops && x in Cone(g, parents[0]) ==> x in mainsub
    ensures ops * mainsub == {} <==> FirstClear(g, parents)
  {
    if ops * mainsub == {} {
      forall i | 0 <= i < |parents| && parents[i] != parents[0] ensures parents[i] !in Cone(g, parents[0]) {
        assert parents[i] in ops;
        assert parents[i] !in ops * mainsub;
      }
    } else {
      var x :| x in ops * mainsub;
      var i :| 0 <= i < |parents| && parents[i] == x;
    }
  }

  method ReadBounded(g: Graph, k: nat, tp: Id, minLayer: nat) returns (mainsub: set<Id>)
    requires Wf(g, k) && tp in g
    ensures mainsub <= Cone(g, tp)
    ensures forall x :: x in Cone(g, tp) && x in g && minLayer <= g[x].layer ==> x in mainsub
  {
    ghost var low := Cone(g, tp);
    mainsub := {0};
    GenesisInCone(g, tp);
    var gap, cur := MAX_TIP_LAYER_GAP, tp;
    while cur != MAX_ID && gap > 0
      invariant gap <= MAX_TIP_LAYER_GAP && ReadTo(g, mainsub, low, cur)
      invariant gap < MAX_TIP_LAYER_GAP && cur != MAX_ID ==> g[cur].layer < minLayer
      decreases if cur == MAX_ID then 0 else cur + 1
    {
      ReadStep(g, k, mainsub, low, cur);
      mainsub := mainsub + {cur} + g[cur].blue.Keys + g[cur].red.Keys;
      if cur != 0 {
        ParentIsLower(g, k, cur, g[cur].mainParent);
      }
      if g[cur].layer < minLayer {
        gap := gap - 1;
      }
      cur := g[cur].mainParent;
    }
    forall x | x in low && x in g && minLayer <= g[x].layer ensures x in mainsub {
      if x !in mainsub && x != cur {
        PastIsLower(g, k, cur, x);
      }
    }
  }

  /** The four tests together. */
  ghost predicate IsDagBlock(g: Graph, parents: seq<Id>, priority: int)
    requires Known(g, parents)
  {
    && PriorityOk(g, parents, priority) && LayerGapOk(g, parents) && LegalityOk(g, parents)
    && parents != [] && FirstClear(g, parents)
  }

  /** A list that puts the bluest parent first and passes the test has no parent
      in the main parent's past. */
  lemma BluestFirstSuffices(g: Graph, parents: seq<Id>)
    requires DistinctHashes(g) && Known(g, parents) && parents != [] && FirstClear(g, parents)
    requires Elems(parents) <= g.Keys && IsBluest(g, Elems(parents), parents[0])
    ensures MainClear(g, Elems(parents), parents[0])
  {
    forall p | p in Elems(parents) && p != parents[0] ensures p !in Cone(g, parents[0]) {
      var i :| 0 <= i < |parents| && parents[i] == p;
    }
  }

  // ---------------------------------------------------------------- a list that passes but should not

  function Rung(b: Id): Node {
    if b == 0 then Node(0, 1, {}, MAX_ID, 0, 0, 0, map[], map[])
    else Node(b, 1, {b - 1}, b - 1, b, b, b, map[], map[])
  }

  ghost predicate Step(g: map<Id, Node>, b: Id) { b in g && g[b] == Rung(b) }

  /** A DAG that is one chain of `n` blocks. */
  ghost predicate IsLadder(g: Graph, n: nat)
  {
    (forall b :: b in g ==> b < n) && forall b {:trigger Step(g, b)} :: 0 <= b < n ==> Step(g, b)
  }

  lemma LadderExists(n: nat) returns (g: Graph)
    requires n <= MAX_ID
    ensures IsLadder(g, n)
  {
    g := map b | 0 <= b < n :: Rung(b);
  }

  /** A block on top of a single parent brings nothing else in. */
  lemma OneParent(g: Graph, k: nat, n: Node, p: Id)
    requires DistinctHashes(g) && p in g && n.parents == {p} && n.mainParent == p && n.blue == map[] && n.red == map[]
    requires n.layer == g[p].layer + 1 && n.height == g[p].height + 1 && n.blueNum == g[p].blueNum + 1
    ensures MainParentOk(g, n) && DiffOk(g, n) && ColourOk(g, k, n) && OrderOk(g, n)
  {
    assert PastOf(g, {p}) == Cone(g, p);
    assert n.Diff() == {};
    assert BlueSet(g, k, p, {}) == {};
    assert Arrange(g, p, {}, {p}, {}) == [];
  }

  lemma LadderIsWf(g: Graph, n: nat, k: nat)
    requires IsLadder(g, n)
    ensures Wf(g, k)
  {
    forall a, b | a in g && b in g && SameHash(g, a, b) ensures a == b {
      assert Step(g, a) && Step(g, b);
    }
    forall b | b in g ensures Derived(g, k, b) {
      assert Step(g, b);
      if b > 0 {
        assert Step(g, b - 1);
        OneParent(g, k, g[b], b - 1);
      }
    }
  }

  lemma {:induction false} LadderCone(g: Graph, n: nat, b: Id)
    requires IsLadder(g, n) && b < n
    ensures b in g && forall x: Id :: x in Cone(g, b) <==> x <= b
  {
    assert Step(g, b);
    if b > 0 {
      LadderCone(g, n, b - 1);
      assert Cone(g, b) == {b} + Cone(g, b - 1);
    } else {
      assert Cone(g, b) == {b};
    }
  }

  lemma LadderTests(g: Graph, n: nat, a: Id, b: Id)
    requires IsLadder(g, n) && a + 2 <= b <= a + MAX_TIP_LAYER_GAP && b < n
    ensures Known(g, [a, b]) && PriorityOk(g, [a, b], 2) && LayerGapOk(g, [a, b]) && LegalityOk(g, [a, b])
    ensures {a, b} <= g.Keys && IsBluest(g, {a, b}, b)
  {
    assert Step(g, a) && Step(g, b);
    assert LowPriorities(g, [a, b]) == 2 by {
      assert [a, b][1..] == [b];
      assert LowPriorities(g, [b]) == 1;
    }
  }

  /** Without the bluest parent in the first place, a list can pass all four tests although one of
      its parents lies in the past of the main parent: any two blocks of a chain that are neither
      next to each other nor too far apart, the lower one first. */
  lemma TestsAloneDoNotSuffice(k: nat, a: Id, b: Id) returns (g: Graph)
    requires a + 2 <= b <= a + MAX_TIP_LAYER_GAP && b < MAX_ID
    ensures Wf(g, k) && Known(g, [a, b]) && IsDagBlock(g, [a, b], 2)
    ensures {a, b} <= g.Keys && IsBluest(g, {a, b}, b) && !MainClear(g, {a, b}, b)
  {
    g := LadderExists(b + 1);
    LadderIsWf(g, b + 1, k);
    LadderTests(g, b + 1, a, b);
    LadderCone(g, b + 1, a);
    LadderCone(g, b + 1, b);
  }
}
