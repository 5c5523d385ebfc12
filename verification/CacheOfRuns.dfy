/** The block cache and the states of runs: adding, rolling back, pruning and committing act on
    the blocks as the steps of the cache do, and the blocks waiting for a commit are the pending ones. */
module CacheOfRuns {
  import opened Dag
  import opened Anticone
  import opened State
  import opened Transitions
  import opened MeerDag
  import opened BlockChain
  import opened Cache

  /** The blocks of a state as records. */
  ghost function AllOf(m: Mem): map<Id, Record>
    requires m.children.Keys == m.g.Keys && m.orders.Keys == m.g.Keys
  {
    map b | b in m.g :: Record(m.g[b], m.children[b], m.orders[b])
  }

  ghost predicate PartOf(loaded: map<Id, Record>, all: map<Id, Record>)
  {
    loaded.Keys <= all.Keys && forall b :: b in loaded ==> loaded[b] == all[b]
  }

  lemma StoredIsAll(m: Mem, blocks: map<Id, Record>)
    requires m.children.Keys == m.g.Keys && m.orders.Keys == m.g.Keys && BlocksStored(m, blocks)
    ensures blocks == AllOf(m)
  {}

  lemma AllIsLogical(m: Mem, k: nat)
    requires MemOk(m, k)
    ensures Logical(AllOf(m))
  {
    NeighboursMatch(m.g, m.children, AllOf(m));
  }

  /** At every point of a run the block bucket is what the cache shows, whatever is loaded. */
  lemma RunIsShown(p: Point, k: nat, limit: nat, loaded: map<Id, Record>)
    requires Running(p, k, limit) && PartOf(loaded, p.db.blocks)
    ensures MemOk(p.mem, k) && AllOf(p.mem) == p.db.blocks && Held(AllOf(p.mem), loaded, p.db.blocks, {})
  {
    RunningIs(p, k, limit);
    StoredIsAll(p.mem, p.db.blocks);
    AllIsLogical(p.mem, k);
  }

  /** Between adding and committing a cache that has the blocks to be written loaded shows the new
      state, with exactly those blocks pending. */
  lemma AheadIsHeld(m: Mem, k: nat, db: Db, snap: Snapshot, commitOrder: map<nat, Id>, commitBlock: set<Id>,
                    commitChain: map<Id, bool>, loaded: map<Id, Record>)
    requires MemOk(m, k) && Differs(m, k, db, snap, commitOrder, commitBlock, commitChain)
    requires PartOf(loaded, AllOf(m)) && commitBlock <= loaded.Keys
    ensures Held(AllOf(m), loaded, db.blocks, commitBlock)
  {
    AllIsLogical(m, k);
  }

  /** Rolling back is taking back. */
  lemma UndoneIsTakenBack(m: Mem, k: nat, snap: Snapshot)
    requires MemOk(m, k) && m.total > 0 && snap.block in m.g && MemOk(Undone(m, snap), k)
    ensures snap.block in AllOf(m) && AllOf(Undone(m, snap)) == TakenBack(AllOf(m), snap.block, snap.orders)
  {
    UndoneRecords(m, Undone(m, snap), snap, AllOf(m));
  }

  lemma UndoneRecords(m: Mem, u: Mem, snap: Snapshot, all: map<Id, Record>)
    requires m.children.Keys == m.g.Keys && m.orders.Keys == m.g.Keys && all == AllOf(m) && snap.block in m.g
    requires u.g == m.g - {snap.block} && u.children == Unlinked(m.children, snap.block, m.g[snap.block].parents)
    requires u.orders == Restored(m.orders, snap.orders, snap.block)
    ensures u.children.Keys == u.g.Keys && u.orders.Keys == u.g.Keys
    ensures AllOf(u) == TakenBack(all, snap.block, snap.orders)
  {
    var back := TakenBack(all, snap.block, snap.orders);
    assert back.Keys == u.g.Keys;
    forall x | x in u.g ensures AllOf(u)[x] == back[x] {
      assert Reduced(all, snap.block)[x].node == u.g[x];
    }
  }

  lemma RecordAt(m: Mem, x: Id)
    requires m.children.Keys == m.g.Keys && m.orders.Keys == m.g.Keys && x in m.g
    ensures x in AllOf(m) && AllOf(m)[x] == Record(m.g[x], m.children[x], m.orders[x])
  {}

  lemma OldChildren(h: Graph, d: map<Id, set<Id>>, c: map<Id, set<Id>>, b: Id, x: Id)
    requires b in h && Inverse(h, d) && c == Unlinked(d, b, h[b].parents) && x in h && x != b
    ensures x in c && d[x] == if x in h[b].parents then c[x] + {b} else c[x]
  {
    assert x in h[b].parents ==> b in d[x];
  }

  /** Adding is taking up, with the numbers saved for the way back. */
  lemma AddingIsTakingUp(m: Mem, r: Mem, k: nat, snap: Snapshot)
    requires MemOk(m, k) && MemOk(r, k) && r.total > 0 && snap.block in r.g && Undone(r, snap) == m
    ensures TakenUp(AllOf(m), AllOf(r), snap.block, AllOf(r)[snap.block], snap.orders)
  {
    AddedRecords(m, r, snap.block, snap.orders);
  }

  lemma AddedRecords(m: Mem, r: Mem, b: Id, saved: map<Id, nat>)
    requires m.children.Keys == m.g.Keys == m.orders.Keys && r.children.Keys == r.g.Keys == r.orders.Keys
    requires Closed(r.g) && b in r.g && m.g == r.g - {b} && Inverse(r.g, r.children)
    requires m.children == Unlinked(r.children, b, r.g[b].parents) && m.orders == Restored(r.orders, saved, b)
    ensures TakenUp(AllOf(m), AllOf(r), b, AllOf(r)[b], saved)
  {
    var all, now := AllOf(m), AllOf(r);
    forall x | x in all
      ensures x in now && now[x].node == all[x].node
      ensures now[x].children == if x in r.g[b].parents then all[x].children + {b} else all[x].children
      ensures if x in saved then saved[x] == all[x].order else now[x].order == all[x].order
    {
      RecordAt(m, x);
      RecordAt(r, x);
      OldChildren(r.g, r.children, m.children, b, x);
    }
    RecordAt(r, b);
    TakenUpRecords(all, now, b, now[b], saved);
  }

  lemma TakenUpRecords(all: map<Id, Record>, now: map<Id, Record>, b: Id, r: Record, saved: map<Id, nat>)
    requires b !in all && b in now && now.Keys == all.Keys + {b} && r == now[b]
    requires forall x :: x in all ==> now[x].node == all[x].node
    requires forall x :: x in all ==>
      now[x].children == if x in r.node.parents then all[x].children + {b} else all[x].children
    requires forall x :: x in all ==> if x in saved then saved[x] == all[x].order else now[x].order == all[x].order
    ensures TakenUp(all, now, b, r, saved)
  {}

  /** Pruning a tip is removing it. */
  lemma PrunedIsReduced(m: Mem, k: nat, b: Id)
    requires MemOk(m, k) && b in m.g && b !in m.g[b].parents && m.g[b].parents <= m.children.Keys
    ensures var r := Pruned(m, b);
      && r.children.Keys == r.g.Keys && r.orders.Keys == r.g.Keys && b in AllOf(m) && AllOf(r) == Reduced(AllOf(m), b)
  {
    PrunedRecords(m, b, Pruned(m, b), AllOf(m));
  }

  lemma PrunedRecords(m: Mem, b: Id, r: Mem, all: map<Id, Record>)
    requires m.children.Keys == m.g.Keys && m.orders.Keys == m.g.Keys && all == AllOf(m) && b in m.g
    requires r.g == m.g - {b} && r.children == Unlinked(m.children, b, m.g[b].parents) && r.orders == m.orders - {b}
    ensures r.children.Keys == r.g.Keys && r.orders.Keys == r.g.Keys && AllOf(r) == Reduced(all, b)
  {
    assert Reduced(all, b).Keys == r.g.Keys;
    forall x | x in r.g ensures AllOf(r)[x] == Reduced(all, b)[x] {
      RecordAt(m, x);
    }
  }
}
