/** What the derived fields of a block mean: layers and heights as lengths of paths, pasts as what paths reach,
    and the numbers in a diff-anticone as the outcome of comparing colours and blocks. */
module Meaning {
  import opened Dag
  import opened Blue
  import opened DiffOrder
  import opened Precedence
  import opened Spec
  import opened State
  import opened Reorg

  // ---------------------------------------------------------------- paths

  /** A walk from block to parent. */
  ghost predicate IsPath(g: Graph, s: seq<Id>, from: Id, to: Id)
  {
    && s != [] && s[0] == from && s[|s| - 1] == to && from in g
    && forall i :: 0 <= i < |s| - 1 ==> s[i] in g && s[i + 1] in g[s[i]].parents
  }

  lemma PathOnwards(g: Graph, s: seq<Id>, from: Id, to: Id)
    requires IsPath(g, s, from, to) && |s| > 1
    ensures s[1] in g[from].parents && IsPath(g, s[1..], s[1], to)
  {
    assert s[0 + 1] in g[s[0]].parents;
  }

  lemma PathFrom(g: Graph, b: Id, p: Id, s: seq<Id>, to: Id)
    requires b in g && p in g[b].parents && IsPath(g, s, p, to)
    ensures IsPath(g, [b] + s, b, to)
  {}

  lemma {:induction false} PathExists(g: Graph, b: Id, x: Id) returns (s: seq<Id>)
    requires b in g && x in Cone(g, b)
    ensures IsPath(g, s, b, x)
    decreases b
  {
    if x == b {
      s := [b];
    } else {
      var p :| p in g[b].parents && x in Cone(g, p);
      s := PathExists(g, p, x);
      PathFrom(g, b, p, s, x);
      s := [b] + s;
    }
  }

  lemma {:induction false} PathStaysInside(g: Graph, s: seq<Id>, b: Id, x: Id)
    requires IsPath(g, s, b, x)
    ensures x in Cone(g, b)
    decreases |s|
  {
    ConeBounds(g, b);
    if |s| > 1 {
      PathOnwards(g, s, b, x);
      PathStaysInside(g, s[1..], s[1], x);
      ConeOfParent(g, b, s[1]);
    }
  }

  /** The closed past of a block is what paths lead to. */
  lemma ConeIsReach(g: Graph, b: Id, x: Id)
    requires b in g
    ensures x in Cone(g, b) <==> exists s :: IsPath(g, s, b, x)
  {
    if x in Cone(g, b) {
      var s := PathExists(g, b, x);
    }
    if s :| IsPath(g, s, b, x) {
      PathStaysInside(g, s, b, x);
    }
  }

  lemma {:induction false} PathIsShort(g: Graph, k: nat, s: seq<Id>, b: Id, x: Id)
    requires Wf(g, k) && IsPath(g, s, b, x)
    ensures |s| <= g[b].layer + 1
    decreases |s|
  {
    if |s| > 1 {
      PathOnwards(g, s, b, x);
      ParentIsLower(g, k, b, s[1]);
      PathIsShort(g, k, s[1..], s[1], x);
    }
  }

  lemma {:induction false} LongestPath(g: Graph, k: nat, b: Id) returns (s: seq<Id>)
    requires Wf(g, k) && b in g
    ensures IsPath(g, s, b, 0) && |s| == g[b].layer + 1
    decreases b
  {
    assert Derived(g, k, b);
    if b == 0 {
      s := [0];
    } else {
      var p :| p in g[b].parents && g[b].layer == g[p].layer + 1;
      s := LongestPath(g, k, p);
      PathFrom(g, b, p, s, 0);
      s := [b] + s;
    }
  }

  /** The layer of a block is the number of steps of the longest way down, which ends at block 0. */
  lemma LayerIsLongestPath(g: Graph, k: nat, b: Id)
    requires Wf(g, k) && b in g
    ensures exists s :: IsPath(g, s, b, 0) && |s| == g[b].layer + 1
    ensures forall s, x :: IsPath(g, s, b, x) ==> |s| <= g[b].layer + 1
  {
    var s := LongestPath(g, k, b);
    forall s, x | IsPath(g, s, b, x) ensures |s| <= g[b].layer + 1 {
      PathIsShort(g, k, s, b, x);
    }
  }

  /** The height of a block is the number of steps along main parents down to block 0. */
  lemma {:induction false} HeightIsChainLength(g: Graph, k: nat, b: Id)
    requires Wf(g, k) && b in g
    ensures |Chain(g, b)| == g[b].height + 1
    decreases b
  {
    if b == 0 {
      assert Derived(g, k, b);
    } else {
      MainParentFacts(g, k, b);
      HeightIsChainLength(g, k, g[b].mainParent);
    }
  }

  // ---------------------------------------------------------------- main parents and main tips

  /** The main parent has the most blue blocks behind it of all parents, then the highest priority, then the
      smallest hash. */
  lemma MainParentIsTop(g: Graph, k: nat, b: Id, p: Id)
    requires Wf(g, k) && b in g && b != 0 && p in g[b].parents
    ensures var m, q := g[g[b].mainParent], g[p];
      && q.blueNum <= m.blueNum
      && (q.blueNum == m.blueNum ==> q.priority <= m.priority)
      && (q.blueNum == m.blueNum && q.priority == m.priority ==> m.hash <= q.hash)
  {
    MainParentFacts(g, k, b);
    BluestIsTop(g, g[b].parents, g[b].mainParent);
  }

  /** So has the main tip of all blocks. */
  lemma MainTipIsTop(m: Mem, k: nat, x: Id)
    requires MemOk(m, k) && x in m.g
    ensures m.mainTip in m.g
    ensures var t, y := m.g[m.mainTip], m.g[x];
      && y.blueNum <= t.blueNum
      && (y.blueNum == t.blueNum ==> y.priority <= t.priority)
      && (y.blueNum == t.blueNum && y.priority == t.priority ==> t.hash <= y.hash)
  {
    BluestIsTop(m.g, m.g.Keys, m.mainTip);
  }

  // ---------------------------------------------------------------- numbers in a diff-anticone

  /** The number that `n` gives to a block of its diff-anticone. */
  ghost function NumberIn(n: Node, x: Id): nat
    requires x in n.Diff()
  {
    if x in n.blue then n.blue[x] else n.red[x]
  }

  lemma BeforeIsLower(n: Node, s: seq<Id>, p: Id, q: Id)
    requires Numbered(n.blue, n.red, s) && Before(s, p, q)
    ensures p in n.Diff() && q in n.Diff() && NumberIn(n, p) < NumberIn(n, q)
  {
    var i, j :| 0 <= i < j < |s| && s[i] == p && s[j] == q;
    assert s[i] in n.Diff() && s[j] in n.Diff();
  }

  /** A parent that no other parent reaches is in the diff-anticone. */
  lemma OtherParentIsDiff(g: Graph, k: nat, b: Id, p: Id)
    requires Wf(g, k) && b in g && b != 0 && p in g[b].parents && p !in Cone(g, g[b].mainParent)
    ensures p in g[b].Diff()
  {
    DiffFacts(g, k, b);
    ConeBounds(g, p);
  }

  /** Of two parents that no other parent reaches, the blue one is numbered before the red one, and of one
      colour the bluer one is numbered first. */
  lemma OtherParentsAreNumbered(g: Graph, k: nat, b: Id, p: Id, q: Id)
    requires Wf(g, k) && b in g && b != 0 && p in g[b].parents && q in g[b].parents
    requires p != g[b].mainParent && q != g[b].mainParent
    requires forall r :: r in g[b].parents && r != p ==> p !in Cone(g, r)
    requires forall r :: r in g[b].parents && r != q ==> q !in Cone(g, r)
    ensures p in g[b].Diff() && q in g[b].Diff()
    ensures p in g[b].blue && q in g[b].red ==> g[b].blue[p] < g[b].red[q]
    ensures p in g[b].blue && q in g[b].blue && Bluer(g[p], g[q]) ==> g[b].blue[p] < g[b].blue[q]
    ensures p in g[b].red && q in g[b].red && Bluer(g[p], g[q]) ==> g[b].red[p] < g[b].red[q]
  {
    OtherParentIsDiff(g, k, b, p);
    OtherParentIsDiff(g, k, b, q);
    DiffFacts(g, k, b);
    if ComesFirst(g, g[b].mainParent, g[b].blue.Keys, p, q) {
      OtherParentsInOrder(g, k, b, p, q);
    }
  }

  lemma OtherParentsInOrder(g: Graph, k: nat, b: Id, p: Id, q: Id)
    requires Wf(g, k) && b in g && b != 0
    requires p in g[b].parents && q in g[b].parents && p in g[b].Diff() && q in g[b].Diff()
    requires p in g && q in g && ComesFirst(g, g[b].mainParent, g[b].blue.Keys, p, q)
    requires forall r :: r in g[b].parents && r != q ==> q !in Cone(g, r)
    ensures Before(DiffOrd(g, k, b), p, q) && NumberIn(g[b], p) < NumberIn(g[b], q)
  {
    DiffFacts(g, k, b);
    NumberFacts(g, k, b);
    ParentsInOrder(g, g[b].parents, g[b].mainParent, g[b].blue.Keys, g[b].Diff(), p, q);
    BeforeIsLower(g[b], DiffOrd(g, k, b), p, q);
  }

  /** A block between two blocks of the diff-anticone is in it. */
  lemma BetweenIsDiff(g: Graph, k: nat, b: Id, r: Id, c: Id, q: Id)
    requires Wf(g, k) && b in g && b != 0 && r in g[b].Diff() && r in g && q in g[b].Diff()
    requires c in g && c in Cone(g, r) && q in g[c].parents
    ensures c in g[b].Diff()
  {
    DiffFacts(g, k, b);
    var p :| p in g[b].parents && r in Cone(g, p);
    ConeTransitive(g, p, r);
    if c in Cone(g, g[b].mainParent) {
      ConeHasParents(g, g[b].mainParent, c, q);
    }
  }

  /** Nothing else leads to a parent of its only child. */
  lemma NoWayAround(g: Graph, k: nat, b: Id, x: Id, q: Id, r: Id)
    requires Wf(g, k) && b in g && b != 0 && x in g && q in g[b].Diff()
    requires r in g[x].parents && r in g[b].Diff() && r != q
    requires forall c :: c in g[b].Diff() && c in g && q in g[c].parents ==> c == x
    ensures q !in Cone(g, r)
  {
    if q in Cone(g, r) {
      var c := ConeStep(g, r, q);
      BetweenIsDiff(g, k, b, r, c, q);
      ConeBounds(g, r);
    }
  }

  /** The same inside the diff-anticone: of two parents of `x`, the second of which is no other block's parent,
      the main parent is numbered first, then the blue before the red, then the bluer. */
  lemma InnerParentsAreNumbered(g: Graph, k: nat, b: Id, x: Id, p: Id, q: Id)
    requires Wf(g, k) && b in g && b != 0 && x in g[b].Diff() && x in g
    requires p in g[x].parents && q in g[x].parents && p in g[b].Diff() && q in g[b].Diff() && q !in g[b].parents
    requires forall c :: c in g[b].Diff() && c in g && q in g[c].parents ==> c == x
    requires q != g[x].mainParent
    requires || p == g[x].mainParent || (p in g[b].blue && q in g[b].red)
      || ((p in g[b].blue <==> q in g[b].blue) && Bluer(g[p], g[q]))
    ensures NumberIn(g[b], p) < NumberIn(g[b], q)
  {
    var blue, diff := g[b].blue.Keys, g[b].Diff();
    DiffFacts(g, k, b);
    forall r | r in g[x].parents && r in diff && r != q ensures q !in Cone(g, r) {
      NoWayAround(g, k, b, x, q, r);
    }
    assert OnlyThrough(g, blue, diff, x, p, q);
    DiffOrdIsPermutation(g, k, b);
    assert q in Elems(DiffOrd(g, k, b));
    InnerParentsInOrder(g, g[b].parents, g[b].mainParent, blue, diff, x, p, q);
    NumberFacts(g, k, b);
    BeforeIsLower(g[b], DiffOrd(g, k, b), p, q);
  }

  /** The order numbers in memory follow these numbers for every block of the main chain. */
  lemma OrdersFollowNumbers(m: Mem, k: nat, b: Id, p: Id, q: Id)
    requires MemOk(m, k) && m.total > 0 && m.mainTip in m.g && b in Chain(m.g, m.mainTip) && b in m.g && b != 0
    requires p in m.g[b].Diff() && q in m.g[b].Diff()
    ensures p in m.g && q in m.g && (m.orders[p] < m.orders[q] <==> NumberIn(m.g[b], p) < NumberIn(m.g[b], q))
    ensures m.orders[p] == m.orders[m.g[b].mainParent] + NumberIn(m.g[b], p)
  {
    DiffFacts(m.g, k, b);
    OrderIsBasePlusNumber(m, k, b, p);
    OrderIsBasePlusNumber(m, k, b, q);
  }

  lemma OrderIsBasePlusNumber(m: Mem, k: nat, b: Id, p: Id)
    requires MemOk(m, k) && m.total > 0 && m.mainTip in m.g && b in Chain(m.g, m.mainTip) && b in m.g && b != 0
    requires p in m.g[b].Diff() && p in m.g
    ensures m.orders[p] == m.orders[m.g[b].mainParent] + NumberIn(m.g[b], p)
  {
    var line, base := Line(m, k), |Order(m.g, k, m.g[b].mainParent)| - 1;
    PartsPlaced(m.g, k, m.mainTip, b, line, base);
    PlaceOf(line, m.g[b], base, p);
    BaseIsMainParent(m.g, k, m.mainTip, b);
    NumberAt(line, m.orders, base);
    NumberAt(line, m.orders, base + NumberIn(m.g[b], p));
  }

  lemma NumberAt(line: seq<Id>, orders: map<Id, nat>, i: nat)
    requires Numbering(line, orders) && i < |line|
    ensures line[i] in orders && orders[line[i]] == i
  {}

  lemma PlaceOf(line: seq<Id>, n: Node, base: int, p: Id)
    requires Placed(line, n.blue, base) && Placed(line, n.red, base) && p in n.Diff()
    ensures 0 <= base + NumberIn(n, p) < |line| && line[base + NumberIn(n, p)] == p
  {}

  lemma BaseIsMainParent(g: Graph, k: nat, t: Id, b: Id)
    requires Wf(g, k) && t in g && b in Chain(g, t) && b in g && b != 0
    ensures var line, base := Order(g, k, t), |Order(g, k, g[b].mainParent)| - 1;
      0 <= base < |line| && line[base] == g[b].mainParent
  {
    var i :| 0 <= i < |Chain(g, t)| && Chain(g, t)[i] == b;
    ChainAt(g, t, i);
    OrderPrefix(g, k, t, g[b].mainParent);
    OrderIsCone(g, k, g[b].mainParent);
  }
}
