/** A family of states with one old tip: block 1 hangs on block 0 beside the chain 0, 2, 3, ..., n.
    With a small enough limit the old tip is discardable, with a larger one it is not, so that
    buckets written under the larger limit cannot be loaded at once under the smaller one. */
module StaleTip {
  import opened Dag
  import opened Blue
  import opened Spec
  import opened Anticone
  import opened Checks
  import opened State
  import opened Persist

  function Block(b: Id): Node {
    if b == 0 then Node(0, 1, {}, MAX_ID, 0, 0, 0, map[], map[])
    else if b <= 2 then Node(b, 1, {0}, 0, 1, 1, 1, map[], map[])
    else Node(b, 1, {b - 1}, b - 1, b - 1, b - 1, b - 1, map[], map[])
  }

  ghost predicate IsBlock(g: map<Id, Node>, b: Id) { b in g && g[b] == Block(b) }

  ghost predicate IsFork(g: Graph, n: nat)
  {
    (forall b :: b in g ==> b <= n) && forall b {:trigger IsBlock(g, b)} :: 0 <= b <= n ==> IsBlock(g, b)
  }

  lemma ForkExists(n: nat) returns (g: Graph)
    requires n < MAX_ID
    ensures IsFork(g, n)
  {
    g := map b | 0 <= b <= n :: Block(b);
  }

  lemma ForkIsWf(g: Graph, n: nat, k: nat)
    requires IsFork(g, n)
    ensures Wf(g, k)
  {
    forall a, b | a in g && b in g && SameHash(g, a, b) ensures a == b {
      assert IsBlock(g, a) && IsBlock(g, b);
    }
    forall b | b in g ensures Derived(g, k, b) {
      assert IsBlock(g, b);
      if b > 0 {
        var p := g[b].mainParent;
        assert IsBlock(g, p);
        OneParent(g, k, g[b], p);
      }
    }
  }

  /** Position i of the order. */
  function At(i: nat): Id { if i == 0 then 0 else i + 1 }

  lemma ForkStep(g: Graph, n: nat, k: nat, b: Id)
    requires IsFork(g, n) && Wf(g, k) && b in g && b > 1
    ensures g[b].mainParent == (if b == 2 then 0 else b - 1) && Order(g, k, b) == Order(g, k, g[b].mainParent) + [b]
  {
    assert IsBlock(g, b);
    DiffOrdIsPermutation(g, k, b);
    assert |DiffOrd(g, k, b)| == 0;
    WithNothing(Order(g, k, g[b].mainParent), DiffOrd(g, k, b), b);
  }

  lemma WithNothing(low: seq<Id>, mid: seq<Id>, b: Id)
    requires mid == []
    ensures low + mid + [b] == low + [b]
  {}

  ghost predicate Ascending(s: seq<Id>) { forall i :: 0 <= i < |s| ==> s[i] == At(i) }

  lemma {:induction false} ForkOrder(g: Graph, n: nat, k: nat, b: Id)
    requires IsFork(g, n) && Wf(g, k) && b in g && b != 1
    ensures |Order(g, k, b)| == (if b == 0 then 1 else b) && Ascending(Order(g, k, b))
    decreases b
  {
    if b > 0 {
      ForkStep(g, n, k, b);
      var low := Order(g, k, g[b].mainParent);
      ForkOrder(g, n, k, g[b].mainParent);
      AscendMore(low, b);
    }
  }

  lemma AscendMore(s: seq<Id>, b: Id)
    requires Ascending(s) && b == At(|s|)
    ensures Ascending(s + [b])
  {}

  lemma ForkCone(g: Graph, n: nat, k: nat, x: Id)
    requires IsFork(g, n) && Wf(g, k) && n >= 3 && n in g
    ensures x in Cone(g, n) <==> x <= n && x != 1
  {
    ForkOrder(g, n, k, n);
    OrderIsCone(g, k, n);
    var line := Order(g, k, n);
    if x <= n && x != 1 {
      var i := if x == 0 then 0 else x - 1;
      assert line[i] == x;
      assert x in Elems(line);
    }
    if x in Elems(line) {
      var i :| 0 <= i < |line| && line[i] == x;
    }
  }

  ghost function Kids(n: nat, b: Id): set<Id> {
    if b == 0 then {1, 2} else if b == 1 || b == n then {} else {b + 1}
  }

  ghost function Number(b: Id): nat {
    if b == 0 then 0 else if b == 1 then MAX_ORDER else b - 1
  }

  ghost function StateFor(g: Graph, n: nat): Mem {
    Mem(g, map b | b in g :: Kids(n, b), map b | b in g :: Number(b), {1, n}, n + 1, 0, n, 0, {1})
  }

  ghost predicate KidsAt(children: map<Id, set<Id>>, n: nat, b: Id) { b in children && children[b] == Kids(n, b) }

  lemma KidHasParent(g: Graph, n: nat, x: Id, c: Id)
    requires IsFork(g, n) && n >= 3 && x <= n && c in Kids(n, x)
    ensures c in g && x in g[c].parents
  {
    assert IsBlock(g, c);
  }

  lemma ParentHasKid(g: Graph, n: nat, x: Id, c: Id)
    requires IsFork(g, n) && n >= 3 && c in g && x in g[c].parents
    ensures c in Kids(n, x)
  {
    assert IsBlock(g, c);
  }

  lemma KidsAreInverse(g: Graph, n: nat, children: map<Id, set<Id>>)
    requires IsFork(g, n) && n >= 3 && children.Keys == g.Keys
    requires forall b {:trigger KidsAt(children, n, b)} :: b in g ==> KidsAt(children, n, b)
    ensures Inverse(g, children)
  {
    forall x, c | x in g && c in children[x] ensures c in g && x in g[c].parents {
      assert KidsAt(children, n, x);
      KidHasParent(g, n, x, c);
    }
    forall c, x | c in g && x in g[c].parents ensures c in children[x] {
      assert KidsAt(children, n, x);
      ParentHasKid(g, n, x, c);
    }
  }

  lemma TopIsBluest(g: Graph, n: nat)
    requires IsFork(g, n) && n >= 3
    ensures IsBluest(g, g.Keys, n)
  {
    assert IsBlock(g, n);
    forall x | x in g && x != n ensures Bluer(g[n], g[x]) {
      assert IsBlock(g, x);
    }
  }

  lemma ShapeIsOk(g: Graph, n: nat, k: nat)
    requires IsFork(g, n) && 3 <= n < MAX_ID - 1
    ensures Shape(StateFor(g, n), k)
  {
    var m := StateFor(g, n);
    ForkIsWf(g, n, k);
    forall b | b in g ensures KidsAt(m.children, n, b) {}
    KidsAreInverse(g, n, m.children);
    assert IsBlock(g, 1) && IsBlock(g, n);
    assert Childless(m.children, m.tips);
  }

  lemma OnlyOneOutside(g: Graph, n: nat, k: nat)
    requires IsFork(g, n) && Wf(g, k) && n >= 3 && n in g && 1 in g
    ensures g.Keys - Cone(g, n) == {1}
  {
    forall x | x in g ensures x in Cone(g, n) <==> x != 1 {
      ForkCone(g, n, k, x);
    }
  }

  lemma StateIsOk(g: Graph, n: nat, k: nat)
    requires IsFork(g, n) && 3 <= n < MAX_ID - 1
    ensures MemOk(StateFor(g, n), k)
  {
    ShapeIsOk(g, n, k);
    TopIsBluest(g, n);
    assert IsBlock(g, 0) && IsBlock(g, 1) && IsBlock(g, n);
    OnlyOneOutside(g, n, k);
    ForkOrder(g, n, k, n);
    NumbersFit(g, n, Order(g, k, n), StateFor(g, n).orders);
    assert Started(StateFor(g, n), k);
  }

  lemma NumbersFit(g: Graph, n: nat, line: seq<Id>, orders: map<Id, nat>)
    requires IsFork(g, n) && |line| == n >= 3 && Ascending(line)
    requires orders.Keys == g.Keys && forall b :: b in g ==> orders[b] == Number(b)
    ensures Numbering(line, orders)
  {
    forall i | 0 <= i < n ensures line[i] in orders && orders[line[i]] == i {
      assert IsBlock(g, At(i));
    }
    forall x | x in g && x != 1 ensures x in line {
      assert line[if x == 0 then 0 else x - 1] == x;
    }
  }

  // ---------------------------------------------------------------- buckets

  lemma BlocksFor(m: Mem) returns (blocks: map<Id, Record>)
    requires m.children.Keys == m.g.Keys && m.orders.Keys == m.g.Keys
    ensures BlocksStored(m, blocks)
  {
    blocks := map b | b in m.g :: Record(m.g[b], m.children[b], m.orders[b]);
  }

  lemma TipsFor(tips: set<Id>, mainTip: Id) returns (stored: map<Id, bool>)
    ensures TipsStored(tips, mainTip, stored)
  {
    stored := map t | t in tips :: t == mainTip;
  }

  lemma IndexFor(line: seq<Id>) returns (index: map<nat, Id>)
    ensures IndexHolds(line, index)
  {
    index := map i | 0 <= i < |line| :: line[i];
  }

  /** Every consistent state has buckets that hold it. */
  lemma BucketsFor(m: Mem, k: nat) returns (db: Db)
    requires MemOk(m, k) && m.total > 0
    ensures DbOk(m, k, db)
  {
    var ids := IdsFor(m.g);
    var blocks := BlocksFor(m);
    var tips := TipsFor(m.tips, m.mainTip);
    var index := IndexFor(Line(m, k));
    db := Db(blocks, ids, tips, m.diffAnticone, MainChain(m, k), index);
  }

  lemma {:induction false} IdsFor(g: map<Id, Node>) returns (ids: map<nat, Id>)
    requires DistinctHashes(g)
    ensures IdsStored(g, ids)
    decreases g.Keys
  {
    if g == map[] {
      ids := map[];
    } else {
      var b :| b in g;
      var low := g - {b};
      assert DistinctHashes(low) by {
        assert forall x, y :: x in low && y in low && SameHash(low, x, y) ==> SameHash(g, x, y);
      }
      ids := IdsFor(low);
      ids := ids[g[b].hash := b];
      forall x | x in g ensures g[x].hash in ids && ids[g[x].hash] == x {
        assert x != b ==> low[x].hash in ids;
        assert SameHash(g, x, b) ==> x == b;
      }
    }
  }

  // ---------------------------------------------------------------- the two limits

  lemma ForkState(n: nat, k: nat) returns (m: Mem)
    requires 3 <= n < MAX_ID - 1
    ensures MemOk(m, k) && m.total > 0 && m.tips == {1, n} && m.mainTip == n
    ensures 1 in m.g && n in m.g && 1 in m.orders && n in m.orders
    ensures m.orders[1] == MAX_ORDER && m.g[1].height == 1 && m.g[n].height == n - 1
  {
    var g := ForkExists(n);
    StateIsOk(g, n, k);
    assert IsBlock(g, 1) && IsBlock(g, n);
    m := StateFor(g, n);
  }

  lemma TwoVerdicts(m: Mem, n: nat, limit: nat)
    requires m.mainTip == n && n == limit + 3 && 1 in m.g && n in m.g && 1 in m.orders && n in m.orders
    requires m.orders[1] == MAX_ORDER && m.g[1].height == 1 && m.g[n].height == n - 1
    ensures Discardable(m, limit, 1) && !Discardable(m, limit + 1, 1) && !Discardable(m, limit + 1, n)
  {}

  lemma OneLimitNotTheOther(m: Mem, k: nat, n: nat, limit: nat)
    requires MemOk(m, k) && m.total > 0 && m.tips == {1, n} && m.mainTip == n && n == limit + 3
    requires 1 in m.g && n in m.g && 1 in m.orders && n in m.orders
    requires m.orders[1] == MAX_ORDER && m.g[1].height == 1 && m.g[n].height == n - 1
    ensures NothingToDiscard(m, k, limit + 1) && !NothingToDiscard(m, k, limit)
  {
    TwoVerdicts(m, n, limit);
    assert 1 in m.tips;
    assert forall t :: t in m.tips ==> t in m.orders && !Discardable(m, limit + 1, t);
  }

  /** For every limit there are a consistent state and buckets that hold it such that nothing is
      discardable under the next larger limit, but under this one the load fails. */
  lemma LoadCanFail(k: nat, limit: nat) returns (m: Mem, db: Db)
    requires limit + 4 < MAX_ID
    ensures MemOk(m, k) && m.total > 0 && DbOk(m, k, db)
    ensures NothingToDiscard(m, k, limit + 1) && !NothingToDiscard(m, k, limit)
  {
    m := ForkState(limit + 3, k);
    OneLimitNotTheOther(m, k, limit + 3, limit);
    db := BucketsFor(m, k);
  }
}
