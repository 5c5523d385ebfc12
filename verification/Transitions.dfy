/** State changes as facts about values: putting a block in, choosing the
    main tip, edit scripts, undoing and pruning. */
module Transitions {
  import opened Dag
  import opened Blue
  import opened Spec
  import opened Anticone
  import opened State

  // ---------------------------------------------------------------- putting a block in

  function Linked(children: map<Id, set<Id>>, b: Id, parents: set<Id>): map<Id, set<Id>> {
    map x | x in children.Keys + {b} ::
      if x == b then {} else if x in parents then children[x] + {b} else children[x]
  }

  lemma LinkedMore(children: map<Id, set<Id>>, b: Id, parents: set<Id>, p: Id)
    requires p in children && p != b && p !in parents
    ensures var l := Linked(children, b, parents); l[p := l[p] + {b}] == Linked(children, b, parents + {p})
  {}

  lemma LinkedIsInverse(g: Graph, h: Graph, children: map<Id, set<Id>>, b: Id)
    requires Inverse(g, children) && b !in g && Within(g, h) && h.Keys == g.Keys + {b} && h[b].parents <= g.Keys
    ensures Inverse(h, Linked(children, b, h[b].parents))
  {
    LinksAreInverse(g, h, children, Linked(children, b, h[b].parents), b);
  }

  lemma LinksAreInverse(g: Graph, h: Graph, children: map<Id, set<Id>>, l: map<Id, set<Id>>, b: Id)
    requires Inverse(g, children) && b !in g && Within(g, h) && h.Keys == g.Keys + {b} && h[b].parents <= g.Keys
    requires l.Keys == h.Keys && l[b] == {}
    requires forall x :: x in g ==> l[x] == if x in h[b].parents then children[x] + {b} else children[x]
    ensures Inverse(h, l)
  {
    forall x, c | x in h && c in l[x] ensures c in h && x in h[c].parents {
      assert x != b;
      ChildHasParent(g, h, children, l[x], b, x, c);
    }
    forall c, x | c in h && x in h[c].parents ensures c in l[x] {
      assert x in g by {
        assert c != b ==> x in g[c].parents;
      }
      ParentHasChild(g, h, children, l[x], b, x, c);
    }
  }

  lemma ChildHasParent(g: Graph, h: Graph, children: map<Id, set<Id>>, kids: set<Id>, b: Id, x: Id, c: Id)
    requires Inverse(g, children) && b in h && Within(g, h) && x in g && c in kids
    requires kids == if x in h[b].parents then children[x] + {b} else children[x]
    ensures c in h && x in h[c].parents
  {
    assert c != b ==> c in children[x];
  }

  lemma ParentHasChild(g: Graph, h: Graph, children: map<Id, set<Id>>, kids: set<Id>, b: Id, x: Id, c: Id)
    requires Inverse(g, children) && b in h && Within(g, h)
    requires h.Keys == g.Keys + {b} && c in h && x in h[c].parents && x in g
    requires kids == if x in h[b].parents then children[x] + {b} else children[x]
    ensures c in kids
  {
    assert c != b ==> x in g[c].parents;
  }

  /** The state right after block `b` has been put in and before the main chain is looked at. */
  ghost predicate Inserted(m: Mem, n: Mem, k: nat, b: Id)
  {
    && b == m.total && b !in m.g && n.g.Keys == m.g.Keys + {b} && Within(m.g, n.g)
    && Shape(n, k)
    && n.orders == m.orders[b := MAX_ORDER]
    && n.total == m.total + 1
    && n.mainTip == m.mainTip && n.mainGenesis == m.mainGenesis && n.diffAnticone == m.diffAnticone
  }

  /** Links a new block to its parents. */
  method LinkParents(children0: map<Id, set<Id>>, b: Id, parents: set<Id>) returns (children: map<Id, set<Id>>)
    requires parents <= children0.Keys && b !in children0
    ensures children == Linked(children0, b, parents)
  {
    children := children0[b := {}];
    assert children == Linked(children0, b, {});
    var rest := parents;
    while rest != {}
      invariant rest <= parents && children == Linked(children0, b, parents - rest)
    {
      var p :| p in rest;
      LinkedMore(children0, b, parents - rest, p);
      assert parents - (rest - {p}) == parents - rest + {p};
      rest := rest - {p};
      children := children[p := children[p] + {b}];
    }
    assert parents - rest == parents;
  }

  /** Drops tips that have become parents and adds a childless block. */
  method UpdateTips(children: map<Id, set<Id>>, tips0: set<Id>, b: Id) returns (tips: set<Id>)
    requires b in children && tips0 <= children.Keys
    ensures tips == if children[b] != {} then tips0 else (set t | t in tips0 && children[t] == {}) + {b}
  {
    tips := tips0;
    if children[b] != {} {
      return;
    }
    var rest := tips;
    while rest != {}
      invariant rest <= tips0
      invariant forall t :: t in tips <==> t in tips0 && (t in rest || children[t] == {})
    {
      var t :| t in rest;
      rest := rest - {t};
      if children[t] != {} {
        tips := tips - {t};
      }
    }
    tips := tips + {b};
  }

  /** Links a new block to its parents and brings the tips up to date. */
  method LinkAndTip(children0: map<Id, set<Id>>, tips0: set<Id>, b: Id, parents: set<Id>)
    returns (children: map<Id, set<Id>>, tips: set<Id>)
    requires parents <= children0.Keys && b !in children0 && Childless(children0, tips0)
    ensures children == Linked(children0, b, parents) && Childless(children, tips)
  {
    children := LinkParents(children0, b, parents);
    tips := UpdateTips(children, tips0, b);
    assert forall x :: x in children && x != b && children[x] == {} ==> children0[x] == {};
  }

  lemma InsertedIs(m: Mem, r: Mem, k: nat, b: Id, n: Node)
    requires Shape(m, k) && b == m.total && 0 < b < MAX_ID
    requires n.parents <= m.g.Keys && r.g == m.g[b := n] && Closed(r.g) && Wf(r.g, k)
    requires r.children == Linked(m.children, b, n.parents)
    requires r.orders == m.orders[b := MAX_ORDER] && r.total == m.total + 1 && Childless(r.children, r.tips)
    requires r.mainTip == m.mainTip && r.mainGenesis == m.mainGenesis && r.diffAnticone == m.diffAnticone
    ensures Inserted(m, r, k, b)
  {
    WithOneMore(m.g, b, n);
    OrdersGrow(m.g, r.g, m.orders, b, r.total);
    assert Inverse(r.g, r.children) by {
      LinkedIsInverse(m.g, r.g, m.children, b);
    }
    assert Shape(r, k);
  }

  lemma OrdersGrow(g: map<Id, Node>, h: map<Id, Node>, orders: map<Id, nat>, b: Id, total: nat)
    requires orders.Keys == g.Keys && (forall x :: x in g ==> x < b) && b < total && h.Keys == g.Keys + {b}
    ensures orders[b := MAX_ORDER].Keys == h.Keys && forall x :: x in h ==> x < total
  {}

  function Later(a: int, b: int): int { if a < b then b else a }

  /** Puts a coloured block in: record, links, tips, total and time. */
  method Insert(m: Mem, k: nat, n: Node, time: int) returns (r: Mem)
    requires Shape(m, k) && 0 < m.total < MAX_ID
    requires n.parents <= m.g.Keys && Closed(m.g[m.total := n]) && Wf(m.g[m.total := n], k)
    ensures Inserted(m, r, k, m.total) && r.g == m.g[m.total := n]
    ensures r.children == Linked(m.children, m.total, n.parents) && r.lastTime == Later(m.lastTime, time)
    ensures m.lastTime <= r.lastTime && time <= r.lastTime && (r.lastTime == m.lastTime || r.lastTime == time)
  {
    var b := m.total;
    var children, tips := LinkAndTip(m.children, m.tips, b, n.parents);
    r := m.(g := m.g[b := n], children := children, orders := m.orders[b := MAX_ORDER], tips := tips,
            total := b + 1, lastTime := Later(m.lastTime, time));
    InsertedIs(m, r, k, b, n);
  }

  // ---------------------------------------------------------------- the main tip

  lemma NewBlockIsTip(g: Graph, h: Graph, children: map<Id, set<Id>>, tips: set<Id>, b: Id)
    requires Within(g, h) && b !in g && h.Keys == g.Keys + {b} && Inverse(h, children) && Childless(children, tips)
    ensures b in tips
  {
    assert forall c :: c in h ==> b !in h[c].parents;
    assert forall c :: c !in children[b];
  }

  /** A main tip that is no longer a tip has become a parent of the new block. */
  lemma LostTip(g: Graph, h: Graph, k: nat, children: map<Id, set<Id>>, tips: set<Id>, t: Id, b: Id)
    requires Within(g, h) && b !in g && h.Keys == g.Keys + {b} && Inverse(h, children) && Childless(children, tips)
    requires Wf(g, k) && Wf(h, k) && IsBluest(g, g.Keys, t) && t !in tips
    ensures Bluer(h[b], h[t])
  {
    var c :| c in children[t];
    if c in g {
      BluestIsChildless(g, k, t, c);
      assert false;
    }
    ParentIsLower(h, k, b, t);
  }

  lemma BluestExtends(g: Graph, h: Graph, t: Id, b: Id, top: Id)
    requires Within(g, h) && b !in g && h.Keys == g.Keys + {b} && IsBluest(g, g.Keys, t)
    requires (top == b && Bluer(h[b], h[t])) || (top == t && Bluer(h[t], h[b]))
    ensures IsBluest(h, h.Keys, top)
  {
    forall x | x in h && x != top ensures Bluer(h[top], h[x]) {
      if x != b && x != t {
        assert Bluer(g[t], g[x]);
      }
    }
  }

  /** The bluest tip is either the old main tip or the new block, and it is the
      bluest of all blocks. */
  lemma BluestTip(g: Graph, h: Graph, k: nat, children: map<Id, set<Id>>, tips: set<Id>, t: Id, b: Id, top: Id)
    requires Within(g, h) && b !in g && h.Keys == g.Keys + {b} && Inverse(h, children) && Childless(children, tips)
    requires Wf(g, k) && Wf(h, k) && IsBluest(g, g.Keys, t)
    requires tips <= h.Keys && IsBluest(h, tips, top)
    ensures (top == b && Bluer(h[b], h[t])) || (top == t && Bluer(h[t], h[b]))
    ensures IsBluest(h, h.Keys, top)
  {
    NewBlockIsTip(g, h, children, tips, b);
    if t !in tips {
      LostTip(g, h, k, children, tips, t, b);
    }
    if top != b && top != t {
      assert false;
    }
    BluestExtends(g, h, t, b, top);
  }

  lemma NumberingWithUnordered(line: seq<Id>, orders: map<Id, nat>, b: Id)
    requires Numbering(line, orders) && b !in orders
    ensures Numbering(line, orders[b := MAX_ORDER])
  {}

  lemma OneMoreOutside(all: set<Id>, more: set<Id>, cone: set<Id>, b: Id)
    requires more == all + {b} && b !in all && cone <= all
    ensures all - cone + {b} == more - cone
  {}

  // ---------------------------------------------------------------- undoing

  function Unlinked(children: map<Id, set<Id>>, b: Id, parents: set<Id>): map<Id, set<Id>> {
    map x | x in children && x != b :: if x in parents then children[x] - {b} else children[x]
  }

  lemma UnlinkUndoesLink(g: Graph, children: map<Id, set<Id>>, b: Id, parents: set<Id>)
    requires Inverse(g, children) && b !in g
    ensures Unlinked(Linked(children, b, parents), b, parents) == children
  {
    assert forall x :: x in children ==> b !in children[x];
    var l := Linked(children, b, parents);
    forall x | x in children ensures x in l && x != b && (if x in parents then l[x] - {b} else l[x]) == children[x] {}
  }

  /** The numbers before the last block was added. */
  function Restored(orders: map<Id, nat>, saved: map<Id, nat>, b: Id): map<Id, nat> {
    map x | x in orders && x != b :: if x in saved then saved[x] else orders[x]
  }

  // ---------------------------------------------------------------- pruning

  /** The state without the tip `b`. */
  function Pruned(m: Mem, b: Id): Mem
    requires b in m.g && m.g[b].parents <= m.children.Keys && b !in m.g[b].parents
  {
    var children := Unlinked(m.children, b, m.g[b].parents);
    m.(g := m.g - {b}, children := children, orders := m.orders - {b},
       tips := m.tips - {b} + (set p | p in m.g[b].parents && children[p] == {}),
       diffAnticone := m.diffAnticone - {b})
  }

  lemma UnlinkedIsInverse(g: Graph, h: Graph, children: map<Id, set<Id>>, b: Id)
    requires Inverse(g, children) && b in g && children[b] == {} && h == g - {b}
    ensures Inverse(h, Unlinked(children, b, g[b].parents))
  {
    var u := Unlinked(children, b, g[b].parents);
    forall x, c | x in h && c in u[x] ensures c in h && x in h[c].parents {
      assert c in children[x];
      assert x in g[c].parents;
    }
    forall c, x | c in h && x in h[c].parents ensures c in u[x] {
      assert c in children[x];
    }
  }

  lemma UnlinkedChildless(children: map<Id, set<Id>>, tips: set<Id>, b: Id, parents: set<Id>)
    requires Childless(children, tips) && b in tips && parents <= children.Keys && b !in parents
    ensures var u := Unlinked(children, b, parents);
      Childless(u, tips - {b} + (set p | p in parents && u[p] == {}))
  {}

  lemma PrunedIsClosed(g: Graph, children: map<Id, set<Id>>, b: Id)
    requires Inverse(g, children) && b in g && b != 0 && children[b] == {}
    ensures Closed(g - {b}) && g[b].parents <= children.Keys && b !in g[b].parents
  {
    forall x, p | x in g && p in g[x].parents ensures p != b {
      assert x in children[p];
    }
  }

  lemma PrunedShape(m: Mem, k: nat, b: Id)
    requires MemOk(m, k) && b in m.tips && b != 0
    ensures m.g[b].parents <= m.children.Keys && b !in m.g[b].parents
    ensures Shape(Pruned(m, b), k)
  {
    var h := m.g - {b};
    PrunedIsClosed(m.g, m.children, b);
    UnlinkedIsInverse(m.g, h, m.children, b);
    UnlinkedChildless(m.children, m.tips, b, m.g[b].parents);
    WfRestrict(h, m.g, k);
  }

  lemma PrunedFrames(g: Graph, h: Graph, k: nat, t: Id, b: Id)
    requires Wf(g, k) && Wf(h, k) && h == g - {b} && t in g && b !in Cone(g, t)
    ensures t in h && 0 in h && Cone(h, t) == Cone(g, t)
    ensures Order(h, k, t) == Order(g, k, t) && Chain(h, t) == Chain(g, t)
  {
    GenesisInCone(g, t);
    ConeBounds(g, t);
    ConeFrame(h, g, t);
    OrderFrame(h, g, k, t);
    ChainFrame(h, g, t);
  }

  /** Taking an unordered tip out keeps the invariant and does not touch the order. */
  lemma PruneKeeps(m: Mem, k: nat, b: Id)
    requires MemOk(m, k) && b in m.tips && b in m.diffAnticone
    ensures m.g[b].parents <= m.children.Keys && b !in m.g[b].parents
    ensures MemOk(Pruned(m, b), k) && Line(Pruned(m, b), k) == Line(m, k)
    ensures MainChain(Pruned(m, b), k) == MainChain(m, k)
  {
    assert b != 0 by {
      GenesisInCone(m.g, m.mainTip);
    }
    PrunedShape(m, k, b);
    PrunedFrames(m.g, m.g - {b}, k, m.mainTip, b);
    PrunedStarted(m, k, b);
  }

  lemma PrunedStarted(m: Mem, k: nat, b: Id)
    requires MemOk(m, k) && b in m.diffAnticone && m.total > 0
    requires b !in m.g[b].parents && m.g[b].parents <= m.children.Keys
    requires Closed(m.g - {b}) && Wf(m.g - {b}, k) && m.mainTip in m.g - {b}
    requires Cone(m.g - {b}, m.mainTip) == Cone(m.g, m.mainTip) && 0 in m.g - {b}
    requires Order(m.g - {b}, k, m.mainTip) == Order(m.g, k, m.mainTip)
    ensures Started(Pruned(m, b), k)
  {
    var line := Order(m.g, k, m.mainTip);
    OrderIsCone(m.g, k, m.mainTip);
    forall i | 0 <= i < |line| ensures line[i] != b {
      assert line[i] in Elems(line);
    }
  }
}
