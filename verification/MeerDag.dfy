/** The DAG of a node: adding a block, committing it to the database,
    taking it back, and pruning tips that fell behind. */
module MeerDag {
  import opened Dag
  import opened Blue
  import opened DiffAnticone
  import opened Spec
  import opened Anticone
  import opened Colour
  import opened State
  import opened Reorg
  import opened EditScript
  import opened Transitions
  import opened Phantom
  import opened Checks
  import opened Persist

  /** What is handed in: hashes stand for blocks. */
  datatype BlockData = BlockData(hash: nat, parents: seq<nat>, priority: int, timestamp: int)

  /** What is needed to take the last block back. */
  datatype Snapshot = Snapshot(
    block: Id, tips: set<Id>, lastTime: int, diffAnticone: set<Id>,
    mainTip: Id, mainGenesis: Id, orders: map<Id, nat>)

  const CLEAN: Snapshot := Snapshot(MAX_ID, {}, 0, {}, MAX_ID, MAX_ID, map[])

  /** Blocks without a pending write are in the block index as they are. */
  ghost predicate Unwritten(m: Mem, blocks: map<Id, Record>, commitBlock: set<Id>)
    requires m.children.Keys == m.g.Keys && m.orders.Keys == m.g.Keys
  {
    && commitBlock <= m.g.Keys && blocks.Keys <= m.g.Keys
    && forall x :: x in m.g && x !in commitBlock ==>
         x in blocks && blocks[x] == Record(m.g[x], m.children[x], m.orders[x])
  }

  /** Between adding and committing: the buckets still hold the previous state,
      and what is pending makes up the difference. */
  ghost predicate Differs(m: Mem, k: nat, db: Db, snap: Snapshot,
                          commitOrder: map<nat, Id>, commitBlock: set<Id>, commitChain: map<Id, bool>)
    requires MemOk(m, k)
  {
    && snap.block in m.g && Unwritten(m, db.blocks, commitBlock)
    && IdsStored(m.g - {snap.block}, db.ids)
    && TipsStored(snap.tips, snap.mainTip, db.tips)
    && db.diffAnticone == snap.diffAnticone
    && MainChain(m, k) == ChainAfter(db.mainChain, commitChain)
    && IndexHolds(Line(m, k), db.order + commitOrder)
  }

  /** What the re-numbering and the new links touched is what has to be written. */
  lemma UnwrittenAfter(m: Mem, r: Mem, k: nat, b: Id, parents: set<Id>, blocks: map<Id, Record>, start: Book,
                       book: Book)
    requires MemOk(m, k) && BlocksStored(m, blocks) && Shape(r, k)
    requires b !in m.g && r.g.Keys == m.g.Keys + {b} && Within(m.g, r.g) && parents <= m.g.Keys
    requires r.children == Linked(m.children, b, parents) && r.orders == book.orders
    requires start.orders == m.orders[b := MAX_ORDER] && start.touched == {b} + parents && Tracked(start, book)
    ensures Unwritten(r, blocks, book.touched)
  {
    forall x | x in r.g && x !in book.touched
      ensures x in blocks && blocks[x] == Record(r.g[x], r.children[x], r.orders[x])
    {
      assert x != b && x !in parents && x !in book.saved;
      assert r.children[x] == m.children[x] && r.orders[x] == m.orders[x];
    }
  }

  /** The way back leads to the state before. */
  lemma UndoIsExact(m: Mem, r: Mem, k: nat, b: Id, parents: set<Id>, start: Book, book: Book)
    requires MemOk(m, k)
    requires b !in m.g && r.g.Keys == m.g.Keys + {b} && Within(m.g, r.g)
    requires r.children == Linked(m.children, b, parents) && r.orders == book.orders
    requires start.orders == m.orders[b := MAX_ORDER] && Tracked(start, book)
    ensures r.g - {b} == m.g && Unlinked(r.children, b, parents) == m.children
    ensures Restored(r.orders, book.saved, b) == m.orders
  {
    UnlinkUndoesLink(m.g, m.children, b, parents);
    MapWithout(m.g, r.g, b);
    OrdersRestored(m.orders, start, book, b);
  }

  lemma MapWithout(g: map<Id, Node>, h: map<Id, Node>, b: Id)
    requires b !in g && h.Keys == g.Keys + {b} && Within(g, h)
    ensures h - {b} == g
  {}

  lemma OrdersRestored(orders: map<Id, nat>, start: Book, book: Book, b: Id)
    requires b !in orders && start.orders == orders[b := MAX_ORDER] && Tracked(start, book)
    ensures Restored(book.orders, book.saved, b) == orders
  {}

  /** No parent lies in the past of the bluest one. */
  ghost predicate ClearParents(g: Graph, parents: set<Id>)
    requires DistinctHashes(g)
  {
    parents != {} && parents <= g.Keys && MainClear(g, parents, Bluest(g, parents))
  }

  /** Whether a block is taken up: it is new and its parents are known and pass the tests. */
  ghost predicate Acceptable(m: Mem, ids: map<nat, Id>, data: BlockData)
  {
    && data.hash !in ids
    && (m.total > 0 ==>
          && data.parents != [] && (forall i :: 0 <= i < |data.parents| ==> data.parents[i] in ids)
          && Closed(m.g) && Known(m.g, ParentIds(ids, data.parents))
          && IsDagBlock(m.g, ParentIds(ids, data.parents), data.priority))
  }

  /** What the callers take care of: the bluest parent has none of the other parents in its past. */
  ghost predicate Proper(m: Mem, ids: map<nat, Id>, data: BlockData)
  {
    Acceptable(m, ids, data) && m.total > 0 ==>
      DistinctHashes(m.g) && ClearParents(m.g, Elems(ParentIds(ids, data.parents)))
  }

  /** The ids of the block's parents; the first block has none. */
  ghost function ParentsOf(m: Mem, ids: map<nat, Id>, data: BlockData): set<Id>
    requires Acceptable(m, ids, data)
  {
    if m.total > 0 then Elems(ParentIds(ids, data.parents)) else {}
  }

  function ParentIds(ids: map<nat, Id>, hashes: seq<nat>): seq<Id>
    requires forall i :: 0 <= i < |hashes| ==> hashes[i] in ids
  {
    seq(|hashes|, i requires 0 <= i < |hashes| => ids[hashes[i]])
  }

  /** The state before the last block, as far as memory and snapshot know it. */
  ghost function Undone(m: Mem, snap: Snapshot): Mem
  {
    if snap.block !in m.g || m.total == 0 then m else
    Mem(m.g - {snap.block}, Unlinked(m.children, snap.block, m.g[snap.block].parents),
        Restored(m.orders, snap.orders, snap.block), snap.tips, m.total - 1, snap.lastTime,
        snap.mainTip, snap.mainGenesis, snap.diffAnticone)
  }

  /** The new state has one block more, with the given data. */
  ghost predicate Added(m: Mem, r: Mem, data: BlockData, parents: set<Id>)
  {
    && m.total !in m.g && r.g.Keys == m.g.Keys + {m.total} && Within(m.g, r.g)
    && r.total == m.total + 1 && r.lastTime == Later(m.lastTime, data.timestamp)
    && r.g[m.total].hash == data.hash && r.g[m.total].priority == data.priority && r.g[m.total].parents == parents
  }

  lemma FreshHash(m: Mem, k: nat, ids: map<nat, Id>, hash: nat)
    requires MemOk(m, k) && 0 < m.total < MAX_ID && IdsStored(m.g, ids) && hash !in ids
    ensures IsNew(m.g, m.total, hash)
  {}

  /** The snapshot taken when a block is added to the state `m`. */
  function SnapshotOf(m: Mem, saved: map<Id, nat>): Snapshot {
    Snapshot(m.total, m.tips, m.lastTime, m.diffAnticone, m.mainTip, m.mainGenesis, saved)
  }

  /** What adding leaves behind: the pending difference and the way back. */
  ghost predicate Adding(m: Mem, r: Mem, k: nat, db: Db, snap: Snapshot, book: Book, marks: map<Id, bool>)
  {
    && MemOk(r, k) && Differs(r, k, db, snap, book.index, book.touched, marks)
    && r.total > 0 && snap.block == m.total && Undone(r, snap) == m
  }

  lemma AfterAdding(m: Mem, put: Mem, r: Mem, k: nat, db: Db, n: Node, start: Book, book: Book,
                    marks: map<Id, bool>, olds: seq<OldEntry>, news: seq<Id>)
    requires MemOk(m, k) && DbOk(m, k, db) && m.total > 0 && n.parents <= m.g.Keys
    requires Inserted(m, put, k, m.total) && put.g == m.g[m.total := n]
    requires put.children == Linked(m.children, m.total, n.parents)
    requires start == Book(put.orders, map[], map[], {m.total} + n.parents)
    requires Settled(m, put, r, k, start, book, marks, db.mainChain, db.order, olds, news)
    ensures Adding(m, r, k, db, SnapshotOf(m, book.saved), book, marks)
  {
    UnwrittenAfter(m, r, k, m.total, n.parents, db.blocks, start, book);
    UndoIsExact(m, r, k, m.total, n.parents, start, book);
    assert Undone(r, SnapshotOf(m, book.saved)) == m;
  }

  /** Adds a block with known, tested parents to a state. */
  method Append(m: Mem, k: nat, db: Db, data: BlockData, parents: set<Id>)
    returns (r: Mem, book: Book, marks: map<Id, bool>, olds: seq<OldEntry>, news: seq<Id>)
    requires MemOk(m, k) && DbOk(m, k, db) && 0 < m.total < MAX_ID && data.hash !in db.ids
    requires parents != {} && parents <= m.g.Keys && MainClear(m.g, parents, Bluest(m.g, parents))
    ensures Adding(m, r, k, db, SnapshotOf(m, book.saved), book, marks)
    ensures Added(m, r, data, parents) && Script(Line(m, k), Line(r, k), olds, news)
  {
    FreshHash(m, k, db.ids, data.hash);
    var n := MakeNode(m.g, k, m.total, data.hash, data.priority, parents);
    var put := Insert(m, k, n, data.timestamp);
    var touched := {m.total} + parents;
    r, book, marks, olds, news := Settle(m, put, k, m.total, touched, db.mainChain, db.order);
    AfterAdding(m, put, r, k, db, n, Book(put.orders, map[], map[], touched), book, marks, olds, news);
    ghost var cut;
    news, olds, cut := Trim(news, olds, book.orders, Line(m, k), Line(r, k));
  }

  method Trim(news0: seq<Id>, olds0: seq<OldEntry>, orders: map<Id, nat>, ghost before: seq<Id>, ghost after: seq<Id>)
    returns (news: seq<Id>, olds: seq<OldEntry>, ghost cut: nat)
    requires Script(before, after, olds0, news0) && forall i :: 0 <= i < |after| ==> after[i] in orders
    ensures Script(before, after, olds, news)
    ensures news != [] && olds != [] ==>
      news[0] != olds[0].id || (news[0] in orders && orders[news[0]] != olds[0].order)
  {
    assert forall i :: 0 <= i < |news0| ==> news0[i] == after[|before| - |olds0| + i];
    news, olds, cut := OptimizeReorganizeResult(news0, olds0, orders);
    TrimKeepsScript(before, after, olds0, news0, cut);
  }

  /** The first block: it starts the main chain and the order. */
  method AppendGenesis(m: Mem, k: nat, db: Db, data: BlockData)
    returns (r: Mem, book: Book, marks: map<Id, bool>, news: seq<Id>)
    requires MemOk(m, k) && DbOk(m, k, db) && m.total == 0
    ensures Adding(m, r, k, db, SnapshotOf(m, book.saved), book, marks)
    ensures Added(m, r, data, {}) && Script(Line(m, k), Line(r, k), [], news)
  {
    var n := Node(data.hash, data.priority, {}, MAX_ID, 0, 0, 0, map[], map[]);
    r := Mem(map[0 := n], map[0 := {}], map[0 := 0], {0}, 1,
             Later(m.lastTime, data.timestamp), 0, 0, {});
    book, marks, news := Book(r.orders, map[0 := 0], map[], {0}), map[0 := true], [0];
    OneBlockIsOk(r, k, n);
    GenesisIsPending(m, r, k, db, book, marks);
  }

  lemma OneBlockIsOk(r: Mem, k: nat, n: Node)
    requires n.parents == {} && n.mainParent == MAX_ID && GenesisOk(n)
    requires r == Mem(map[0 := n], map[0 := {}], map[0 := 0], {0}, 1, r.lastTime, 0, 0, {})
    ensures MemOk(r, k) && Line(r, k) == [0] && Chain(r.g, 0) == [0]
  {
    assert Derived(r.g, k, 0);
    assert Cone(r.g, 0) == {0};
    assert Shape(r, k);
    assert Started(r, k);
  }

  lemma GenesisIsPending(m: Mem, r: Mem, k: nat, db: Db, book: Book, marks: map<Id, bool>)
    requires MemOk(m, k) && DbOk(m, k, db) && m.total == 0
    requires MemOk(r, k) && r.g.Keys == {0} && r.children == map[0 := {}] && r.orders.Keys == {0} && r.total == 1
    requires Line(r, k) == [0] && r.mainTip == 0 && Chain(r.g, 0) == [0]
    requires book.index == map[0 := 0] && book.saved == map[] && book.touched == {0} && marks == map[0 := true]
    ensures Adding(m, r, k, db, SnapshotOf(m, book.saved), book, marks)
  {
    assert r.g - {0} == m.g;
    ElemsAre([0], {0});
  }

  // ---------------------------------------------------------------- which blocks are taken up

  /** Looks up the parents; fails on the first unknown one. */
  method FindParents(ids: map<nat, Id>, hashes: seq<nat>, ghost g: Graph) returns (known: bool, parents: seq<Id>)
    requires IdsStored(g, ids)
    ensures known <==> forall i :: 0 <= i < |hashes| ==> hashes[i] in ids
    ensures known ==> parents == ParentIds(ids, hashes) && Known(g, parents)
  {
    parents := [];
    for i := 0 to |hashes|
      invariant forall j :: 0 <= j < i ==> hashes[j] in ids
      invariant |parents| == i && forall j :: 0 <= j < i ==> parents[j] == ids[hashes[j]]
    {
      if hashes[i] !in ids {
        return false, parents;
      }
      parents := parents + [ids[hashes[i]]];
    }
    known := true;
  }

  /** The four tests, each only when the ones before it are passed. */
  method CheckParents(g: Graph, k: nat, children: map<Id, set<Id>>, parents: seq<Id>, priority: int) returns (ok: bool)
    requires Wf(g, k) && Inverse(g, children) && Known(g, parents)
    ensures ok <==> IsDagBlock(g, parents, priority)
  {
    ok := CheckPriority(g, parents, priority);
    if ok {
      ok := CheckLayerGap(g, parents);
    }
    if ok {
      ok := CheckLegality(g, children, parents);
    }
    if ok {
      ok := IsDag(g, k, parents);
    }
  }

  /** Decides whether a block is taken up, and with which parents. */
  method Examine(m: Mem, k: nat, ids: map<nat, Id>, data: BlockData) returns (ok: bool, parents: set<Id>)
    requires MemOk(m, k) && IdsStored(m.g, ids)
    ensures ok <==> Acceptable(m, ids, data)
    ensures ok ==> parents == ParentsOf(m, ids, data)
  {
    if data.hash in ids {
      return false, {};
    }
    if m.total == 0 {
      return true, {};
    }
    if |data.parents| == 0 {
      return false, {};
    }
    var list;
    ok, list := FindParents(ids, data.parents, m.g);
    if !ok {
      return false, {};
    }
    ok := CheckParents(m.g, k, m.children, list, data.priority);
    parents := set p | p in list;
  }

  /** Adds an acceptable block: the first one or one with parents. */
  method AddTo(m: Mem, k: nat, db: Db, data: BlockData, parents: set<Id>)
    returns (r: Mem, book: Book, marks: map<Id, bool>, olds: seq<OldEntry>, news: seq<Id>)
    requires MemOk(m, k) && DbOk(m, k, db) && m.total < MAX_ID && data.hash !in db.ids
    requires if m.total == 0 then parents == {} else ClearParents(m.g, parents)
    ensures Adding(m, r, k, db, SnapshotOf(m, book.saved), book, marks)
    ensures Added(m, r, data, parents) && Script(Line(m, k), Line(r, k), olds, news)
  {
    if m.total == 0 {
      r, book, marks, news := AppendGenesis(m, k, db, data);
      olds := [];
    } else {
      r, book, marks, olds, news := Append(m, k, db, data, parents);
    }
  }

  // ---------------------------------------------------------------- commit and rollback

  /** Writes the pending difference. */
  method WritePending(m: Mem, k: nat, db: Db, snap: Snapshot, commitOrder: map<nat, Id>, commitBlock: set<Id>,
                      commitChain: map<Id, bool>) returns (out: Db)
    requires MemOk(m, k) && Differs(m, k, db, snap, commitOrder, commitBlock, commitChain)
    ensures DbOk(m, k, out)
  {
    var ids := db.ids[m.g[snap.block].hash := snap.block];
    OneMoreId(m.g, db.ids, snap.block);
    var tips := CommitTips(db.tips, snap.tips, snap.mainTip, m.tips, m.mainTip);
    var diffAnticone := CommitSet(db.diffAnticone, snap.diffAnticone, m.diffAnticone);
    var order := CommitIndex(db.order, commitOrder);
    var blocks := CommitBlocks(m, db.blocks, commitBlock);
    var mainChain := CommitChain(db.mainChain, commitChain);
    out := Db(blocks, ids, tips, diffAnticone, mainChain, order);
  }

  lemma OneMoreId(g: Graph, ids: map<nat, Id>, b: Id)
    requires DistinctHashes(g) && b in g && IdsStored(g - {b}, ids)
    ensures IdsStored(g, ids[g[b].hash := b])
  {
    var more := ids[g[b].hash := b];
    forall x | x in g ensures g[x].hash in more && more[g[x].hash] == x {
      assert x != b ==> x in g - {b} && (g - {b})[x].hash in ids;
      assert SameHash(g, x, b) ==> x == b;
    }
  }

  /** Takes the last block out again. */
  method TakeBack(m: Mem, k: nat, snap: Snapshot) returns (r: Mem)
    requires MemOk(m, k) && snap.block in m.g && m.total > 0
    ensures r == Undone(m, snap)
  {
    var b := snap.block;
    var parents := m.g[b].parents;
    var children := RemoveChild(m.children, b, parents);
    var orders := RestoreOrders(m.orders, snap.orders, b);
    r := Mem(m.g - {b}, children, orders, snap.tips, m.total - 1, snap.lastTime,
             snap.mainTip, snap.mainGenesis, snap.diffAnticone);
  }

  // ---------------------------------------------------------------- states that are passed on

  // The predicates below say what they say for a `Seal` of their own.  Each seal exists, so nothing
  // is lost; but a proof sees what is inside only after it has named seal and state with `Broken`,
  // and a method that merely passes states on stays cheap.

  datatype Seal = OfSound | OfAhead | OfGrown | OfTrimmed | OfLean | OfRetold | OfCounted

  ghost predicate Broken(s: Seal, m: Mem) { true }

  /** Memory is consistent and the buckets hold it. */
  ghost predicate Sound(m: Mem, k: nat, db: Db)
  {
    forall s {:trigger Broken(s, m)} :: Broken(s, m) && s == OfSound ==> MemOk(m, k) && DbOk(m, k, db)
  }

  /** Memory is one block ahead: the buckets hold the state before, what is pending
      makes up the difference, and the snapshot leads back. */
  ghost predicate Ahead(m: Mem, k: nat, db: Db, snap: Snapshot,
                        commitOrder: map<nat, Id>, commitBlock: set<Id>, commitChain: map<Id, bool>)
  {
    forall s {:trigger Broken(s, m)} :: Broken(s, m) && s == OfAhead ==>
      && MemOk(m, k) && Differs(m, k, db, snap, commitOrder, commitBlock, commitChain)
      && m.total > 0 && MemOk(Undone(m, snap), k) && DbOk(Undone(m, snap), k, db)
  }

  /** `r` is `m` with the block, and the two lists turn the order of `m` into that of `r`. */
  ghost predicate Grown(m: Mem, r: Mem, k: nat, ids: map<nat, Id>, data: BlockData, olds: seq<OldEntry>, news: seq<Id>)
  {
    forall s {:trigger Broken(s, m)} :: Broken(s, m) && s == OfGrown ==>
      && MemOk(m, k) && MemOk(r, k) && Acceptable(m, ids, data) && Added(m, r, data, ParentsOf(m, ids, data))
      && Script(Line(m, k), Line(r, k), olds, news)
  }

  /** `r` is `m` without the blocks that have fallen behind together with all that is built on
      them; order, main tip, total and time are as before. */
  ghost predicate Trimmed(m: Mem, r: Mem, k: nat, limit: nat)
  {
    forall s {:trigger Broken(s, m)} :: Broken(s, m) && s == OfTrimmed ==>
      && MemOk(m, k) && MemOk(r, k) && PrunedFrom(m, r, k) && r.g.Keys == m.g.Keys - Gone(m, k, limit)
  }

  /** No tip is discardable. */
  ghost predicate Lean(m: Mem, k: nat, limit: nat)
  {
    forall s {:trigger Broken(s, m)} :: Broken(s, m) && s == OfLean ==> MemOk(m, k) && NothingToDiscard(m, k, limit)
  }

  // What is inside.

  lemma SoundIs(m: Mem, k: nat, db: Db)
    ensures Sound(m, k, db) <==> MemOk(m, k) && DbOk(m, k, db)
  {
    assert Broken(OfSound, m);
  }

  lemma AheadIs(m: Mem, k: nat, db: Db, snap: Snapshot,
                commitOrder: map<nat, Id>, commitBlock: set<Id>, commitChain: map<Id, bool>)
    ensures Ahead(m, k, db, snap, commitOrder, commitBlock, commitChain) <==>
      && MemOk(m, k) && Differs(m, k, db, snap, commitOrder, commitBlock, commitChain)
      && m.total > 0 && MemOk(Undone(m, snap), k) && DbOk(Undone(m, snap), k, db)
  {
    assert Broken(OfAhead, m);
  }

  lemma GrownIs(m: Mem, r: Mem, k: nat, ids: map<nat, Id>, data: BlockData, olds: seq<OldEntry>, news: seq<Id>)
    ensures Grown(m, r, k, ids, data, olds, news) <==>
      && MemOk(m, k) && MemOk(r, k) && Acceptable(m, ids, data) && Added(m, r, data, ParentsOf(m, ids, data))
      && Script(Line(m, k), Line(r, k), olds, news)
  {
    assert Broken(OfGrown, m);
  }

  lemma TrimmedIs(m: Mem, r: Mem, k: nat, limit: nat)
    ensures Trimmed(m, r, k, limit) <==>
      MemOk(m, k) && MemOk(r, k) && PrunedFrom(m, r, k) && r.g.Keys == m.g.Keys - Gone(m, k, limit)
  {
    assert Broken(OfTrimmed, m);
  }

  lemma LeanIs(m: Mem, k: nat, limit: nat)
    ensures Lean(m, k, limit) <==> MemOk(m, k) && NothingToDiscard(m, k, limit)
  {
    assert Broken(OfLean, m);
  }

  method AddToSound(m: Mem, k: nat, db: Db, data: BlockData)
    returns (ok: bool, r: Mem, book: Book, marks: map<Id, bool>, olds: seq<OldEntry>, news: seq<Id>)
    requires Sound(m, k, db) && m.total < MAX_ID && Proper(m, db.ids, data)
    ensures ok <==> Acceptable(m, db.ids, data)
    ensures ok ==> Ahead(r, k, db, SnapshotOf(m, book.saved), book.index, book.touched, marks)
    ensures ok ==> Undone(r, SnapshotOf(m, book.saved)) == m && r.total == m.total + 1
    ensures ok ==> Grown(m, r, k, db.ids, data, olds, news)
  {
    assert Broken(OfSound, m);
    r, book, marks, olds, news := m, Book(map[], map[], map[], {}), map[], [], [];
    var parents;
    ok, parents := Examine(m, k, db.ids, data);
    if ok {
      r, book, marks, olds, news := AddTo(m, k, db, data, parents);
    }
  }

  /** Writes what is pending, if there is something, and prunes. */
  method CommitAhead(m: Mem, k: nat, limit: nat, db: Db, snap: Snapshot, commitOrder: map<nat, Id>,
                     commitBlock: set<Id>,
                     commitChain: map<Id, bool>) returns (r: Mem, out: Db)
    requires snap.block == MAX_ID ==> Sound(m, k, db)
    requires snap.block != MAX_ID ==> Ahead(m, k, db, snap, commitOrder, commitBlock, commitChain)
    ensures Sound(r, k, out) && Trimmed(m, r, k, limit) && Lean(r, k, limit) && r.total == m.total
    ensures snap.block == MAX_ID && Lean(m, k, limit) ==> r == m && out == db
    ensures forall x {:trigger Spared(m, r, limit, x)} :: Spared(m, r, limit, x)
  {
    assert Broken(OfSound, m) && Broken(OfAhead, m) && Broken(OfLean, m);
    r, out := m, db;
    if snap.block != MAX_ID {
      out := WritePending(m, k, db, snap, commitOrder, commitBlock, commitChain);
    }
    if m.total > 0 {
      r, out := OptimizeTips(m, k, out, limit);
    }
  }

  lemma LooseIsNear(m: Mem, k: nat, limit: nat)
    requires Lean(m, k, limit)
    ensures forall x {:trigger NearIfLoose(m, limit, x)} :: NearIfLoose(m, limit, x)
  {
    LeanIs(m, k, limit);
    forall x ensures NearIfLoose(m, limit, x) {
      LeanIsNear(m, k, limit, x);
    }
  }

  method TakeBackAhead(m: Mem, k: nat, ghost db: Db, snap: Snapshot, ghost commitOrder: map<nat, Id>,
                       ghost commitBlock: set<Id>, ghost commitChain: map<Id, bool>) returns (r: Mem)
    requires Ahead(m, k, db, snap, commitOrder, commitBlock, commitChain)
    ensures r == Undone(m, snap) && Sound(r, k, db)
  {
    assert Broken(OfAhead, m);
    r := TakeBack(m, k, snap);
  }

  method LoadSound(db0: Db, k: nat, limit: nat, total: nat, now: int, ghost m: Mem)
    returns (ok: bool, r: Mem, db: Db, ghost left: Mem)
    requires Sound(m, k, db0) && m.total > 0 && total == m.total
    ensures ok <==> Lean(m, k, limit)
    ensures ok ==> Sound(r, k, db) && Lean(r, k, limit) && r == m.(lastTime := now) && db == db0
    ensures Sound(left, k, db) && Lean(left, k, limit) && Trimmed(m.(lastTime := now), left, k, limit)
    ensures r == left.(diffAnticone := r.diffAnticone) && r.diffAnticone <= left.diffAnticone
  {
    assert Broken(OfSound, m) && Broken(OfLean, m);
    TimeIsFree(m, k, db0, now, limit);
    ok, r, db, left := Load(db0, k, limit, total, now, m);
  }

  class MeerDag {
    const k: nat
    const tipsDisLimit: nat

    var mem: Mem
    var db: Db

    // what the next commit has to write, and the way back
    var commitOrder: map<nat, Id>
    var commitBlock: set<Id>
    var commitChain: map<Id, bool>
    var snap: Snapshot

    ghost predicate Idle()
      reads this
    {
      commitOrder == map[] && commitBlock == {} && commitChain == map[] && snap == CLEAN
    }

    /** Everything is written: the invariant between two blocks. */
    ghost predicate Stored()
      reads this
    {
      Idle() && Sound(mem, k, db)
    }

    /** A block has been added and not yet committed. */
    ghost predicate Pending()
      reads this
    {
      snap.block != MAX_ID && Ahead(mem, k, db, snap, commitOrder, commitBlock, commitChain)
    }

    constructor (anticoneSize: nat, limit: nat, now: int)
      ensures Stored() && mem.total == 0 && k == anticoneSize && tipsDisLimit == limit
    {
      k, tipsDisLimit := anticoneSize, limit;
      mem := Mem(map[], map[], map[], {}, 0, now, MAX_ID, 0, {});
      db := Db(map[], map[], map[], {}, {}, map[]);
      commitOrder, commitBlock, commitChain, snap := map[], {}, map[], CLEAN;
    }

    /** Forgets memory and reads the state back from the buckets.  A failure has pruned the buckets:
        they then hold the state `left`, from which the next attempt succeeds. */
    method Reload(total: nat, now: int) returns (ok: bool, ghost left: Mem)
      requires Stored() && mem.total > 0 && total == mem.total
      modifies this
      ensures ok <==> old(Lean(mem, k, tipsDisLimit))
      ensures ok ==> Stored() && mem == old(mem).(lastTime := now) && db == old(db) && Lean(mem, k, tipsDisLimit)
      ensures Sound(left, k, db) && Lean(left, k, tipsDisLimit)
      ensures Trimmed(old(mem).(lastTime := now), left, k, tipsDisLimit)
      ensures mem == left.(diffAnticone := mem.diffAnticone) && mem.diffAnticone <= left.diffAnticone
    {
      var r, d;
      ok, r, d, left := LoadSound(db, k, tipsDisLimit, total, now, mem);
      mem, db := r, d;
    }

    /** Adds a block to memory; nothing is written yet. */
    method AddBlock(data: BlockData) returns (ok: bool, news: seq<Id>, olds: seq<OldEntry>, tipChanged: bool)
      requires Stored() && mem.total < MAX_ID && Proper(mem, db.ids, data)
      modifies this
      ensures db == old(db) && (ok <==> old(Acceptable(mem, db.ids, data)))
      ensures !ok ==> Stored() && mem == old(mem) && news == [] && olds == []
      ensures ok ==> Pending() && snap.block == old(mem.total) && Undone(mem, snap) == old(mem)
      ensures ok ==> Grown(old(mem), mem, k, db.ids, data, olds, news) && mem.total == old(mem.total) + 1
      ensures tipChanged <==> mem.mainTip != old(mem.mainTip)
    {
      var r, book, marks;
      ok, r, book, marks, olds, news := AddToSound(mem, k, db, data);
      if !ok {
        return false, [], [], false;
      }
      snap := SnapshotOf(mem, book.saved);
      tipChanged := mem.mainTip != r.mainTip;
      commitOrder, commitBlock, commitChain := book.index, book.touched, marks;
      mem := r;
    }

    /** Writes what is pending and prunes tips that fell behind. */
    method Commit()
      requires Stored() || Pending()
      modifies this
      ensures Stored() && Trimmed(old(mem), mem, k, tipsDisLimit)
      ensures Lean(mem, k, tipsDisLimit) && mem.total == old(mem.total)
      ensures old(Stored() && Lean(mem, k, tipsDisLimit)) ==> mem == old(mem) && db == old(db)
      ensures forall x {:trigger Spared(old(mem), mem, tipsDisLimit, x)} :: Spared(old(mem), mem, tipsDisLimit, x)
      ensures forall x {:trigger NearIfLoose(mem, tipsDisLimit, x)} :: NearIfLoose(mem, tipsDisLimit, x)
    {
      var r, out := CommitAhead(mem, k, tipsDisLimit, db, snap, commitOrder, commitBlock, commitChain);
      LooseIsNear(r, k, tipsDisLimit);
      mem, db := r, out;
      commitOrder, commitBlock, commitChain, snap := map[], {}, map[], CLEAN;
    }

    /** Takes the last block back; impossible for the first block and when nothing is pending. */
    method Rollback() returns (ok: bool)
      requires Stored() || Pending()
      modifies this
      ensures ok <==> old(snap.block != MAX_ID && snap.block != 0)
      ensures db == old(db)
      ensures if ok then Stored() && mem == old(Undone(mem, snap)) else mem == old(mem) && snap == old(snap)
    {
      if snap.block == MAX_ID || snap.block == 0 {
        return false;
      }
      mem := TakeBackAhead(mem, k, db, snap, commitOrder, commitBlock, commitChain);
      commitOrder, commitBlock, commitChain, snap := map[], {}, map[], CLEAN;
      ok := true;
    }
  }
}
