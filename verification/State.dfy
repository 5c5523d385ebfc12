/** The consensus state as a value, what it has to satisfy, and what the
    database buckets have to hold for it. */
module State {
  import opened Dag
  import opened Blue
  import opened Spec
  import opened Anticone

  /** The order number of a block that is not ordered (32 bits, all ones). */
  const MAX_ORDER: nat := 0xFFFF_FFFF

  /** What a node keeps in memory about the DAG. */
  datatype Mem = Mem(
    g: map<Id, Node>,
    children: map<Id, set<Id>>,
    orders: map<Id, nat>,
    tips: set<Id>,
    total: nat,
    lastTime: int,
    mainTip: Id,
    mainGenesis: Id,
    diffAnticone: set<Id>)

  /** One entry of the block index bucket. */
  datatype Record = Record(node: Node, children: set<Id>, order: nat)

  /** The database buckets. */
  datatype Db = Db(
    blocks: map<Id, Record>,
    ids: map<nat, Id>,
    tips: map<Id, bool>,
    diffAnticone: set<Id>,
    mainChain: set<Id>,
    order: map<nat, Id>)

  ghost predicate Childless(children: map<Id, set<Id>>, tips: set<Id>)
  {
    tips <= children.Keys && forall x :: x in children ==> (x in tips <==> children[x] == {})
  }

  /** `orders` numbers the order of the main tip from 0 and marks all other blocks as unordered. */
  ghost predicate Numbering(line: seq<Id>, orders: map<Id, nat>)
  {
    && (forall i :: 0 <= i < |line| ==> line[i] in orders && orders[line[i]] == i)
    && (forall x :: x in orders && x !in line ==> orders[x] == MAX_ORDER)
  }

  ghost predicate Started(m: Mem, k: nat)
    requires Closed(m.g) && Wf(m.g, k)
  {
    && 0 in m.g && m.mainGenesis == 0
    && IsBluest(m.g, m.g.Keys, m.mainTip)
    && m.diffAnticone == m.g.Keys - Cone(m.g, m.mainTip)
    && Numbering(Order(m.g, k, m.mainTip), m.orders)
  }

  ghost predicate Fresh(m: Mem)
  {
    m.g == map[] && m.tips == {} && m.mainTip == MAX_ID && m.mainGenesis == 0 && m.diffAnticone == {}
  }

  ghost predicate Shape(m: Mem, k: nat)
  {
    && Closed(m.g) && Wf(m.g, k)
    && Inverse(m.g, m.children) && m.orders.Keys == m.g.Keys
    && (forall b :: b in m.g ==> b < m.total) && m.total <= MAX_ID
    && Childless(m.children, m.tips)
  }

  /** The invariant of the consensus state. */
  ghost predicate MemOk(m: Mem, k: nat)
  {
    Shape(m, k) && if m.total == 0 then Fresh(m) else Started(m, k)
  }

  /** The order sequence of a state: the closed past of the main tip. */
  ghost function Line(m: Mem, k: nat): seq<Id>
    requires MemOk(m, k)
  {
    if m.total == 0 then [] else Order(m.g, k, m.mainTip)
  }

  ghost function MainChain(m: Mem, k: nat): set<Id>
    requires MemOk(m, k)
  {
    if m.total == 0 then {} else Elems(Chain(m.g, m.mainTip))
  }

  // ---------------------------------------------------------------- buckets

  ghost predicate BlocksStored(m: Mem, blocks: map<Id, Record>)
    requires m.children.Keys == m.g.Keys && m.orders.Keys == m.g.Keys
  {
    && blocks.Keys == m.g.Keys
    && forall b :: b in m.g ==> blocks[b] == Record(m.g[b], m.children[b], m.orders[b])
  }

  ghost predicate IdsStored(g: map<Id, Node>, ids: map<nat, Id>)
  {
    && (forall b {:trigger g[b].hash} :: b in g ==> g[b].hash in ids && ids[g[b].hash] == b)
    && (forall h :: h in ids ==> ids[h] in g && g[ids[h]].hash == h)
  }

  ghost predicate TipsStored(tips: set<Id>, mainTip: Id, stored: map<Id, bool>)
  {
    stored.Keys == tips && forall t :: t in tips ==> (stored[t] <==> t == mainTip)
  }

  /** The order index agrees with the order; entries beyond its end may be stale. */
  ghost predicate IndexHolds(line: seq<Id>, index: map<nat, Id>)
  {
    forall i :: 0 <= i < |line| ==> i in index && index[i] == line[i]
  }

  /** The buckets hold the state. */
  ghost predicate DbOk(m: Mem, k: nat, db: Db)
    requires MemOk(m, k)
  {
    && BlocksStored(m, db.blocks)
    && IdsStored(m.g, db.ids)
    && TipsStored(m.tips, m.mainTip, db.tips)
    && db.diffAnticone == m.diffAnticone
    && db.mainChain == MainChain(m, k)
    && IndexHolds(Line(m, k), db.order)
  }

  // ---------------------------------------------------------------- consequences

  lemma MainTipFacts(m: Mem, k: nat)
    requires MemOk(m, k) && m.total > 0
    ensures m.mainTip in m.g && m.mainTip in m.tips
    ensures AnticoneOf(m.g, m.mainTip) == m.diffAnticone
    ensures |Line(m, k)| > 0 && m.orders[m.mainTip] == |Line(m, k)| - 1
  {
    var t := m.mainTip;
    BluestAnticone(m.g, k, t);
    assert m.children[t] == {} by {
      forall c | c in m.g ensures c !in m.children[t] {
        BluestIsChildless(m.g, k, t, c);
      }
      assert forall c :: c !in m.children[t];
    }
    OrderIsCone(m.g, k, t);
  }

  /** Nothing reaches the bluest block, so its anticone is all that it does not reach. */
  lemma BluestAnticone(g: Graph, k: nat, t: Id)
    requires Wf(g, k) && IsBluest(g, g.Keys, t)
    ensures AnticoneOf(g, t) == g.Keys - Cone(g, t)
  {
    ConeBounds(g, t);
    forall c | c in g && c != t ensures t !in Cone(g, c) {
      if t in Cone(g, c) {
        PastIsLower(g, k, c, t);
      }
    }
  }

  lemma BluestIsChildless(g: Graph, k: nat, t: Id, c: Id)
    requires Wf(g, k) && IsBluest(g, g.Keys, t)
    requires c in g
    ensures t !in g[c].parents
  {
    if t in g[c].parents {
      ParentIsLower(g, k, c, t);
    }
  }

  /** A block is unordered exactly when it is outside the main tip's closed past. */
  lemma UnorderedIffOutside(m: Mem, k: nat, b: Id)
    requires MemOk(m, k) && b in m.g
    ensures m.orders[b] == MAX_ORDER <==> b in m.diffAnticone
    ensures b !in m.diffAnticone ==> m.orders[b] < |Line(m, k)| && Line(m, k)[m.orders[b]] == b
  {
    var line := Line(m, k);
    OrderIsCone(m.g, k, m.mainTip);
    OrderIsShort(m.g, k, m.mainTip);
    if b in Cone(m.g, m.mainTip) {
      assert b in Elems(line);
      var i :| 0 <= i < |line| && line[i] == b;
    } else {
      assert b !in Elems(line);
    }
  }

  /** What reading the order index gives: position by position the order of the main tip, agreeing
      with the number stored in the block, parents before children. */
  lemma IndexReadsOrder(m: Mem, k: nat, db: Db, i: nat)
    requires MemOk(m, k) && m.total > 0 && DbOk(m, k, db) && m.mainTip in m.g && i <= m.orders[m.mainTip]
    ensures i in db.order && i < |Order(m.g, k, m.mainTip)| && db.order[i] == Order(m.g, k, m.mainTip)[i]
    ensures db.order[i] in Cone(m.g, m.mainTip) && db.order[i] in m.g && m.orders[db.order[i]] == i
    ensures forall p :: p in m.g[db.order[i]].parents ==> m.orders[p] < i && db.order[m.orders[p]] == p
  {
    MainTipFacts(m, k);
    var line, b := Line(m, k), db.order[i];
    OrderIsCone(m.g, k, m.mainTip);
    assert b == line[i] && b in Elems(line);
    ConeBounds(m.g, m.mainTip);
    forall p | p in m.g[b].parents ensures m.orders[p] < i && db.order[m.orders[p]] == p {
      OrderIsTopological(m.g, k, m.mainTip, i, p);
      var j :| 0 <= j < i && line[j] == p;
    }
  }

  /** ... and every block of the main tip's closed past is read exactly once, at its own number. */
  lemma EveryBlockIsRead(m: Mem, k: nat, db: Db, b: Id)
    requires MemOk(m, k) && m.total > 0 && DbOk(m, k, db) && m.mainTip in m.g && b in Cone(m.g, m.mainTip)
    ensures b in m.g && m.orders[b] <= m.orders[m.mainTip] && m.orders[b] in db.order && db.order[m.orders[b]] == b
    ensures forall i :: 0 <= i <= m.orders[m.mainTip] && i in db.order && db.order[i] == b ==> i == m.orders[b]
  {
    MainTipFacts(m, k);
    ConeBounds(m.g, m.mainTip);
    UnorderedIffOutside(m, k, b);
    forall i | 0 <= i <= m.orders[m.mainTip] && i in db.order && db.order[i] == b ensures i == m.orders[b] {
      IndexReadsOrder(m, k, db, i);
    }
  }

  /** Everything a node keeps is determined by the blocks it knows: the incremental state is the
      one that would be computed from scratch. */
  lemma StateIsDetermined(m: Mem, n: Mem, k: nat)
    requires MemOk(m, k) && MemOk(n, k) && m.g == n.g && m.total == n.total && m.lastTime == n.lastTime
    ensures m == n
  {
    ChildrenAreDetermined(m.g, m.children, n.children);
    assert m.tips == n.tips;
    if m.total > 0 {
      BluestUnique(m.g, m.g.Keys, m.mainTip, n.mainTip);
      NumbersAreDetermined(Line(m, k), m.orders, n.orders);
    }
  }

  lemma ChildrenAreDetermined(g: Graph, c: map<Id, set<Id>>, d: map<Id, set<Id>>)
    requires Inverse(g, c) && Inverse(g, d)
    ensures c == d
  {
    forall x | x in g ensures c[x] == d[x] {
      assert forall y :: y in c[x] <==> y in d[x];
    }
  }

  lemma NumbersAreDetermined(line: seq<Id>, c: map<Id, nat>, d: map<Id, nat>)
    requires Numbering(line, c) && Numbering(line, d) && c.Keys == d.Keys
    ensures c == d
  {
    forall x | x in c ensures c[x] == d[x] {
      if x in line {
        var i :| 0 <= i < |line| && line[i] == x;
      }
    }
  }
}
