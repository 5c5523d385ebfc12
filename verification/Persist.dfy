/** Writing the pending difference into the buckets, and reading a state back. */
module Persist {
  import opened Dag
  import opened Blue
  import opened Anticone
  import opened State
  import opened Reorg
  import opened Transitions

  // ---------------------------------------------------------------- commit

  /** Writes the tips that are new or whose main flag may have changed, deletes those that are gone. */
  method CommitTips(stored0: map<Id, bool>, oldTips: set<Id>, oldMain: Id, tips: set<Id>, mainTip: Id)
    returns (stored: map<Id, bool>)
    requires TipsStored(oldTips, oldMain, stored0)
    ensures TipsStored(tips, mainTip, stored)
  {
    stored := stored0;
    var rest := tips;
    while rest != {}
      invariant rest <= tips && stored.Keys == oldTips + (tips - rest)
      invariant forall t :: t in tips && t !in rest ==> (stored[t] <==> t == mainTip)
      invariant forall t :: t in rest && t in stored ==> (stored[t] <==> t == oldMain)
    {
      var t :| t in rest;
      rest := rest - {t};
      if t in oldTips && t != mainTip && t != oldMain {
        continue;
      }
      stored := stored[t := t == mainTip];
    }
    var gone := oldTips;
    while gone != {}
      invariant gone <= oldTips && stored.Keys == tips + gone
      invariant forall t :: t in tips ==> (stored[t] <==> t == mainTip)
    {
      var t :| t in gone;
      gone := gone - {t};
      if t in tips {
        continue;
      }
      stored := stored - {t};
    }
  }

  /** Puts the new members and deletes the former ones. */
  method CommitSet(stored0: set<Id>, before: set<Id>, now: set<Id>) returns (stored: set<Id>)
    requires stored0 == before
    ensures stored == now
  {
    stored := stored0;
    var rest := now;
    while rest != {}
      invariant rest <= now && stored == before + (now - rest)
    {
      var x :| x in rest;
      rest := rest - {x};
      if x in before {
        continue;
      }
      stored := stored + {x};
    }
    rest := before;
    while rest != {}
      invariant rest <= before && stored == now + rest
    {
      var x :| x in rest;
      rest := rest - {x};
      if x in now {
        continue;
      }
      stored := stored - {x};
    }
  }

  method CommitIndex(stored0: map<nat, Id>, pending: map<nat, Id>) returns (stored: map<nat, Id>)
    ensures stored == stored0 + pending
  {
    stored := stored0;
    var rest := pending.Keys;
    while rest != {}
      invariant rest <= pending.Keys
      invariant stored == stored0 + (map i | i in pending && i !in rest :: pending[i])
    {
      var i :| i in rest;
      rest := rest - {i};
      stored := stored[i := pending[i]];
    }
    assert (map i | i in pending && i !in rest :: pending[i]) == pending;
  }

  method CommitBlocks(m: Mem, blocks0: map<Id, Record>, pending: set<Id>) returns (blocks: map<Id, Record>)
    requires m.children.Keys == m.g.Keys && m.orders.Keys == m.g.Keys
    requires pending <= m.g.Keys && blocks0.Keys <= m.g.Keys
    requires forall x :: x in m.g && x !in pending ==>
      x in blocks0 && blocks0[x] == Record(m.g[x], m.children[x], m.orders[x])
    ensures BlocksStored(m, blocks)
  {
    blocks := blocks0;
    var rest := pending;
    while rest != {}
      invariant rest <= pending && blocks.Keys <= m.g.Keys
      invariant forall x :: x in m.g && x !in rest ==>
        x in blocks && blocks[x] == Record(m.g[x], m.children[x], m.orders[x])
    {
      var x :| x in rest;
      rest := rest - {x};
      blocks := blocks[x := Record(m.g[x], m.children[x], m.orders[x])];
    }
  }

  method CommitChain(stored0: set<Id>, marks: map<Id, bool>) returns (stored: set<Id>)
    ensures stored == ChainAfter(stored0, marks)
  {
    stored := stored0;
    var rest := marks.Keys;
    while rest != {}
      invariant rest <= marks.Keys
      invariant forall c :: c in stored <==>
        if c in marks && c !in rest then marks[c] else c in stored0
    {
      var c :| c in rest;
      rest := rest - {c};
      if marks[c] {
        stored := stored + {c};
      } else {
        stored := stored - {c};
      }
    }
  }

  // ---------------------------------------------------------------- pruning

  /** A tip that is neither ordered nor the main tip and has fallen behind in id and height. */
  predicate Discardable(m: Mem, limit: nat, t: Id)
    requires t in m.g && t in m.orders && m.mainTip in m.g
  {
    t != m.mainTip && m.orders[t] == MAX_ORDER && t + limit < m.mainTip
    && m.g[m.mainTip].height - m.g[t].height > limit
  }

  /** Every tip is ordered or near the main tip, in id or in height. */
  ghost predicate NothingToDiscard(m: Mem, k: nat, limit: nat)
    requires MemOk(m, k)
  {
    m.total > 0 ==> forall t :: t in m.tips ==>
      || t == m.mainTip || m.orders[t] != MAX_ORDER || t + limit >= m.mainTip
      || m.g[t].height + limit >= m.g[m.mainTip].height
  }

  method GetDiscardedTips(m: Mem, limit: nat) returns (r: set<Id>)
    requires m.mainTip in m.g && m.tips <= m.g.Keys && m.tips <= m.orders.Keys
    ensures r == set t | t in m.tips && Discardable(m, limit, t)
    ensures forall t :: t in r ==> t + limit < m.mainTip && m.g[t].height + limit < m.g[m.mainTip].height
    ensures forall t :: t in m.tips && t !in r ==>
      t == m.mainTip || m.orders[t] != MAX_ORDER || t + limit >= m.mainTip ||
      m.g[t].height + limit >= m.g[m.mainTip].height
  {
    r := {};
    var rest := m.tips;
    while rest != {}
      invariant rest <= m.tips
      invariant forall t :: t in r <==> t in m.tips && t !in rest && Discardable(m, limit, t)
    {
      var t: Id :| t in rest;
      rest := rest - {t};
      if t == m.mainTip || m.orders[t] != MAX_ORDER || t + limit >= m.mainTip {
        continue;
      }
      var gap := m.g[m.mainTip].height - m.g[t].height;
      if gap > limit {
        r := r + {t};
      }
    }
  }

  lemma DiscardedAreUnordered(m: Mem, k: nat, limit: nat, gone: set<Id>)
    requires MemOk(m, k) && m.total > 0 && gone == set t | t in m.tips && Discardable(m, limit, t)
    ensures gone <= m.diffAnticone && (gone == {} <==> NothingToDiscard(m, k, limit))
  {
    forall t | t in gone ensures t in m.diffAnticone {
      UnorderedIffOutside(m, k, t);
    }
    if gone == {} {
      forall t | t in m.tips ensures !Discardable(m, limit, t) {
        assert t !in gone;
      }
    } else {
      var t :| t in gone;
    }
  }

  /** Unlinks a tip from its parents; parents without children become tips, also in the tips bucket. */
  method DetachTip(m: Mem, b: Id, parents: set<Id>, dbTips0: map<Id, bool>)
    returns (children: map<Id, set<Id>>, tips: set<Id>, dbTips: map<Id, bool>)
    requires b in m.children && b !in parents && parents <= m.children.Keys && TipsStored(m.tips, m.mainTip, dbTips0)
    ensures children == Unlinked(m.children, b, parents)
    ensures tips == m.tips - {b} + (set p | p in parents && children[p] == {})
    ensures TipsStored(tips, m.mainTip, dbTips)
  {
    children, tips, dbTips := m.children - {b}, m.tips - {b}, dbTips0 - {b};
    var rest := parents;
    assert children == Unlinked(m.children, b, {});
    while rest != {}
      invariant rest <= parents && children == Unlinked(m.children, b, parents - rest)
      invariant tips == m.tips - {b} + Bared(children, parents - rest)
      invariant TipsStored(tips, m.mainTip, dbTips)
    {
      var p :| p in rest;
      UnlinkedMore(m.children, b, parents - rest, p);
      CandidateTips(children, parents - rest, p, b);
      assert parents - (rest - {p}) == parents - rest + {p};
      rest := rest - {p};
      children := children[p := children[p] - {b}];
      if children[p] == {} {
        tips := tips + {p};
        dbTips := dbTips[p := p == m.mainTip];
      }
    }
    assert parents - rest == parents;
  }

  ghost function Bared(children: map<Id, set<Id>>, done: set<Id>): set<Id>
    requires done <= children.Keys
  {
    set p | p in done && children[p] == {}
  }

  lemma CandidateTips(children: map<Id, set<Id>>, done: set<Id>, p: Id, b: Id)
    requires done <= children.Keys && p in children && p !in done
    ensures var c := children[p := children[p] - {b}];
      Bared(c, done + {p}) == Bared(children, done) + if c[p] == {} then {p} else {}
  {}

  lemma UnlinkedMore(children: map<Id, set<Id>>, b: Id, parents: set<Id>, p: Id)
    requires p in children && p != b && p !in parents
    ensures var u := Unlinked(children, b, parents); u[p := u[p] - {b}] == Unlinked(children, b, parents + {p})
  {}

  lemma IdsWithout(g: map<Id, Node>, ids: map<nat, Id>, b: Id)
    requires IdsStored(g, ids) && b in g && DistinctHashes(g)
    ensures IdsStored(g - {b}, ids - {g[b].hash})
  {}

  /** Takes an unordered tip out of memory and buckets. */
  method RemoveTip(m: Mem, k: nat, db: Db, b: Id) returns (r: Mem, out: Db)
    requires MemOk(m, k) && DbOk(m, k, db) && b in m.tips && b in m.diffAnticone
    ensures m.g[b].parents <= m.children.Keys && b !in m.g[b].parents && r == Pruned(m, b)
    ensures MemOk(r, k) && DbOk(r, k, out) && Line(r, k) == Line(m, k)
  {
    PruneKeeps(m, k, b);
    IdsWithout(m.g, db.ids, b);
    var children, tips, dbTips := DetachTip(m, b, m.g[b].parents, db.tips);
    r := m.(g := m.g - {b}, children := children, orders := m.orders - {b}, tips := tips,
            diffAnticone := m.diffAnticone - {b});
    var blocks := CommitBlocks(r, db.blocks - {b}, m.g[b].parents);
    out := db.(blocks := blocks, ids := db.ids - {m.g[b].hash}, tips := dbTips, diffAnticone := db.diffAnticone - {b});
  }

  /** What pruning leaves alone. */
  ghost predicate PrunedFrom(m0: Mem, m: Mem, k: nat)
    requires MemOk(m0, k) && MemOk(m, k)
  {
    && Line(m, k) == Line(m0, k) && m.mainTip == m0.mainTip && Within(m.g, m0.g)
    && m.total == m0.total && m.lastTime == m0.lastTime
    && forall x :: x in m.g ==> m.orders[x] == m0.orders[x]
  }

  lemma PrunedTwice(m0: Mem, m: Mem, r: Mem, k: nat)
    requires MemOk(m0, k) && MemOk(m, k) && MemOk(r, k) && PrunedFrom(m0, m, k) && PrunedFrom(m, r, k)
    ensures PrunedFrom(m0, r, k)
  {
    assert Within(r.g, m0.g);
  }

  lemma OtherTipsStay(m: Mem, k: nat, b: Id, rest: set<Id>)
    requires MemOk(m, k) && b in m.tips && b in m.diffAnticone && b !in rest && rest <= m.tips && rest <= m.diffAnticone
    requires m.g[b].parents <= m.children.Keys && b !in m.g[b].parents
    ensures rest <= Pruned(m, b).tips && rest <= Pruned(m, b).diffAnticone && Pruned(m, b).g.Keys == m.g.Keys - {b}
    ensures Within(Pruned(m, b).g, m.g)
  {}

  lemma OneLess(all: set<Id>, tips: set<Id>, rest: set<Id>, b: Id)
    requires b in rest && rest <= tips
    ensures all - (tips - rest) - {b} == all - (tips - (rest - {b}))
  {}

  /** Of the tips of `m0` that are to go, `rest` are still there. */
  ghost predicate Removing(m0: Mem, m: Mem, k: nat, db: Db, tips: set<Id>, rest: set<Id>)
    requires MemOk(m0, k)
  {
    && MemOk(m, k) && DbOk(m, k, db) && PrunedFrom(m0, m, k) && m.g.Keys == m0.g.Keys - (tips - rest)
    && rest <= tips && rest <= m.tips && rest <= m.diffAnticone
  }

  lemma StartRemoving(m: Mem, k: nat, db: Db, tips: set<Id>)
    requires MemOk(m, k) && DbOk(m, k, db) && tips <= m.tips && tips <= m.diffAnticone
    ensures Removing(m, m, k, db, tips, tips)
  {
    assert m.g.Keys - (tips - tips) == m.g.Keys;
  }

  lemma EndRemoving(m0: Mem, m: Mem, k: nat, db: Db, tips: set<Id>, rest: set<Id>)
    requires MemOk(m0, k) && Removing(m0, m, k, db, tips, rest) && rest == {}
    ensures m.g.Keys == m0.g.Keys - tips
  {
    MinusNothing(tips);
  }

  lemma MinusNothing(tips: set<Id>)
    ensures tips - {} == tips
  {}

  /** Takes one of several tips out; the others stay as they are. */
  method RemoveOneTip(m: Mem, k: nat, db: Db, b: Id, ghost m0: Mem, ghost tips: set<Id>, ghost rest: set<Id>)
    returns (r: Mem, out: Db)
    requires MemOk(m0, k) && Removing(m0, m, k, db, tips, rest) && b in rest
    ensures Removing(m0, r, k, out, tips, rest - {b})
  {
    r, out := RemoveTip(m, k, db, b);
    OtherTipsStay(m, k, b, rest - {b});
    PrunedTwice(m0, m, r, k);
    OneLess(m0.g.Keys, tips, rest, b);
  }

  method RemoveTips(m0: Mem, k: nat, db0: Db, tips: set<Id>) returns (m: Mem, db: Db)
    requires MemOk(m0, k) && DbOk(m0, k, db0) && tips <= m0.tips && tips <= m0.diffAnticone
    ensures MemOk(m, k) && DbOk(m, k, db) && PrunedFrom(m0, m, k) && m.g.Keys == m0.g.Keys - tips
  {
    m, db := m0, db0;
    var rest := tips;
    StartRemoving(m0, k, db0, tips);
    while rest != {}
      invariant Removing(m0, m, k, db, tips, rest)
    {
      var b :| b in rest;
      m, db := RemoveOneTip(m, k, db, b, m0, tips, rest);
      rest := rest - {b};
    }
    EndRemoving(m0, m, k, db, tips, rest);
  }

  /** The block and everything built on it have fallen behind. */
  ghost predicate Hopeless(m: Mem, limit: nat, x: Id)
    requires Closed(m.g) && m.orders.Keys == m.g.Keys && m.mainTip in m.g && x in m.g
  {
    forall y :: y in m.g && x in Cone(m.g, y) ==> Discardable(m, limit, y)
  }

  /** What pruning takes away, in whatever order it goes about it. */
  ghost function Gone(m: Mem, k: nat, limit: nat): set<Id>
    requires MemOk(m, k)
  {
    if m.total == 0 then {}
    else
      MainTipFacts(m, k);
      set x | x in m.g && Hopeless(m, limit, x)
  }

  /** One round: removes all tips that are discardable now. */
  method RemoveDiscarded(m0: Mem, k: nat, db0: Db, limit: nat) returns (m: Mem, db: Db, done: bool)
    requires MemOk(m0, k) && DbOk(m0, k, db0) && m0.total > 0
    ensures MemOk(m, k) && DbOk(m, k, db) && PrunedFrom(m0, m, k)
    ensures done <==> NothingToDiscard(m0, k, limit)
    ensures if done then m == m0 && db == db0 else m.g.Keys < m0.g.Keys
    ensures forall t :: t in m0.g && t !in m.g ==>
      t in m0.tips && t in m0.orders && m0.mainTip in m0.g && Discardable(m0, limit, t)
  {
    MainTipFacts(m0, k);
    var gone := GetDiscardedTips(m0, limit);
    DiscardedAreUnordered(m0, k, limit, gone);
    if gone == {} {
      return m0, db0, true;
    }
    m, db := RemoveTips(m0, k, db0, gone);
    FewerBlocks(m0.g.Keys, gone, m.g.Keys);
    done := false;
  }

  lemma FewerBlocks(all: set<Id>, gone: set<Id>, left: set<Id>)
    requires left == all - gone && gone <= all && gone != {}
    ensures left < all && forall t :: t in all && t !in left ==> t in gone
  {
    var t :| t in gone;
    assert t in all && t !in left;
  }

  /** Pruned, and only hopeless blocks so far. */
  ghost predicate Purging(m0: Mem, m: Mem, k: nat, limit: nat)
    requires MemOk(m0, k) && MemOk(m, k)
  {
    PrunedFrom(m0, m, k) && forall x :: x in m0.g && x !in m.g ==> x in Gone(m0, k, limit)
  }

  /** Above every block there is a tip. */
  lemma {:induction false} TipAbove(g: Graph, children: map<Id, set<Id>>, tips: set<Id>, x: Id) returns (z: Id)
    requires Inverse(g, children) && Childless(children, tips) && x in g
    ensures z in tips && z in g && x in Cone(g, z)
    decreases MAX_ID - x
  {
    ConeBounds(g, x);
    if x in tips {
      z := x;
    } else {
      var c :| c in children[x];
      z := TipAbove(g, children, tips, c);
      ConeHasParents(g, z, c, x);
    }
  }

  /** Nothing that is left reaches a tip. */
  lemma OnlyItself(g: Graph, h: Graph, children: map<Id, set<Id>>, tips: set<Id>, t: Id, y: Id)
    requires Within(g, h) && Inverse(g, children) && Childless(children, tips)
    requires t in tips && y in g && y in h && t in Cone(h, y)
    ensures y == t
  {
    ConeFrame(g, h, y);
    if y != t {
      var c := ConeStep(g, y, t);
      assert false;
    }
  }

  lemma SameVerdict(m0: Mem, m: Mem, k: nat, limit: nat, x: Id)
    requires MemOk(m0, k) && MemOk(m, k) && m0.total > 0 && PrunedFrom(m0, m, k) && x in m.g
    ensures x in m0.g && m0.mainTip in m0.g && m.mainTip in m.g
    ensures Discardable(m, limit, x) <==> Discardable(m0, limit, x)
  {
    MainTipFacts(m, k);
  }

  lemma HopelessTip(m0: Mem, m: Mem, k: nat, limit: nat, x: Id)
    requires MemOk(m0, k) && MemOk(m, k) && m0.total > 0 && Purging(m0, m, k, limit)
    requires x in m.tips && x in m.g && m.mainTip in m.g && Discardable(m, limit, x)
    ensures x in Gone(m0, k, limit)
  {
    MainTipFacts(m0, k);
    SameVerdict(m0, m, k, limit, x);
    forall y | y in m0.g && x in Cone(m0.g, y) ensures Discardable(m0, limit, y) {
      if y in m.g {
        OnlyItself(m.g, m0.g, m.children, m.tips, x, y);
      } else {
        ConeBounds(m0.g, y);
        assert Hopeless(m0, limit, y);
      }
    }
  }

  lemma PurgeStep(m0: Mem, m: Mem, r: Mem, k: nat, limit: nat)
    requires MemOk(m0, k) && MemOk(m, k) && MemOk(r, k) && m0.total > 0
    requires Purging(m0, m, k, limit) && PrunedFrom(m, r, k)
    requires forall t :: t in m.g && t !in r.g ==>
      t in m.tips && t in m.orders && m.mainTip in m.g && Discardable(m, limit, t)
    ensures Purging(m0, r, k, limit)
  {
    PrunedTwice(m0, m, r, k);
    forall x | x in m0.g && x !in r.g ensures x in Gone(m0, k, limit) {
      if x in m.g {
        HopelessTip(m0, m, k, limit, x);
      }
    }
  }

  /** Whatever is near the main tip in id or in height, or ordered, is still there. */
  ghost predicate Spared(m0: Mem, m: Mem, limit: nat, x: Id)
  {
    x in m0.g && x in m0.orders && m0.mainTip in m0.g &&
    (|| x + limit >= m0.mainTip
     || m0.g[x].height + limit >= m0.g[m0.mainTip].height
     || m0.orders[x] != MAX_ORDER) ==>
    x in m.g
  }

  /** An unordered block without children is near the main tip in id or in height. */
  ghost predicate NearIfLoose(m: Mem, limit: nat, x: Id)
  {
    x in m.g && x in m.children && m.children[x] == {} && x in m.orders && m.orders[x] == MAX_ORDER ==>
    m.mainTip in m.g && (x + limit >= m.mainTip || m.g[x].height + limit >= m.g[m.mainTip].height)
  }

  lemma NearIsSpared(m0: Mem, m: Mem, k: nat, limit: nat, x: Id)
    requires MemOk(m0, k) && m0.total > 0 && m.g.Keys == m0.g.Keys - Gone(m0, k, limit)
    ensures Spared(m0, m, limit, x)
  {
    if x in Gone(m0, k, limit) {
      ConeBounds(m0.g, x);
    }
  }

  lemma LeanIsNear(m: Mem, k: nat, limit: nat, x: Id)
    requires MemOk(m, k) && NothingToDiscard(m, k, limit)
    ensures NearIfLoose(m, limit, x)
  {
    if x in m.tips {
      MainTipFacts(m, k);
    }
  }

  /** What pruning leaves, told by ids, heights and order numbers. */
  lemma WhatStays(m0: Mem, m: Mem, k: nat, limit: nat)
    requires MemOk(m0, k) && m0.total > 0 && m.g.Keys == m0.g.Keys - Gone(m0, k, limit)
    ensures forall x {:trigger Spared(m0, m, limit, x)} :: Spared(m0, m, limit, x)
  {
    forall x ensures Spared(m0, m, limit, x) {
      NearIsSpared(m0, m, k, limit, x);
    }
  }

  lemma PurgeEnds(m0: Mem, m: Mem, k: nat, limit: nat)
    requires MemOk(m0, k) && MemOk(m, k) && m0.total > 0 && Purging(m0, m, k, limit) && NothingToDiscard(m, k, limit)
    ensures m.g.Keys == m0.g.Keys - Gone(m0, k, limit)
    ensures forall x {:trigger Spared(m0, m, limit, x)} :: Spared(m0, m, limit, x)
  {
    var gone := Gone(m0, k, limit);
    forall x | x in m.g ensures x in m0.g && x !in gone {
      StillHopeful(m0, m, k, limit, x);
    }
    LeftOver(m.g.Keys, m0.g.Keys, gone);
    WhatStays(m0, m, k, limit);
  }

  lemma LeftOver(left: set<Id>, all: set<Id>, gone: set<Id>)
    requires left <= all && left !! gone && forall x :: x in all && x !in left ==> x in gone
    ensures left == all - gone
  {}

  lemma StillHopeful(m0: Mem, m: Mem, k: nat, limit: nat, x: Id)
    requires MemOk(m0, k) && MemOk(m, k) && m0.total > 0 && PrunedFrom(m0, m, k)
    requires NothingToDiscard(m, k, limit) && x in m.g
    ensures x !in Gone(m0, k, limit)
  {
    var z := TipAbove(m.g, m.children, m.tips, x);
    ConeFrame(m.g, m0.g, z);
    SameVerdict(m0, m, k, limit, z);
  }

  /** Pruning does something exactly when a tip is discardable. */
  lemma LeanIffNothingGone(m: Mem, k: nat, limit: nat)
    requires MemOk(m, k)
    ensures NothingToDiscard(m, k, limit) <==> Gone(m, k, limit) == {}
  {
    if m.total > 0 {
      if NothingToDiscard(m, k, limit) {
        forall x | x in m.g ensures x !in Gone(m, k, limit) {
          StillHopeful(m, m, k, limit, x);
        }
      } else {
        MainTipFacts(m, k);
        var t :| t in m.tips && Discardable(m, limit, t);
        HopelessTip(m, m, k, limit, t);
      }
    }
  }

  /** Removes discarded tips until none is left: exactly the hopeless blocks go, so that all blocks near the
      main tip in id or in height stay, and of the unordered childless blocks only those. */
  method OptimizeTips(m0: Mem, k: nat, db0: Db, limit: nat) returns (m: Mem, db: Db)
    requires MemOk(m0, k) && DbOk(m0, k, db0) && m0.total > 0
    ensures MemOk(m, k) && DbOk(m, k, db) && PrunedFrom(m0, m, k) && NothingToDiscard(m, k, limit)
    ensures m.g.Keys == m0.g.Keys - Gone(m0, k, limit)
    ensures if NothingToDiscard(m0, k, limit) then m == m0 && db == db0 else m.g.Keys < m0.g.Keys
    ensures forall x {:trigger Spared(m0, m, limit, x)} :: Spared(m0, m, limit, x)
  {
    var done;
    m, db, done := RemoveDiscarded(m0, k, db0, limit);
    PurgeStep(m0, m0, m, k, limit);
    while !done
      invariant MemOk(m, k) && DbOk(m, k, db) && Purging(m0, m, k, limit)
      invariant done ==> NothingToDiscard(m, k, limit)
      invariant if NothingToDiscard(m0, k, limit) then done && m == m0 && db == db0 else m.g.Keys < m0.g.Keys
      decreases !done, m.g.Keys
    {
      ghost var before := m;
      m, db, done := RemoveDiscarded(m, k, db, limit);
      PurgeStep(m0, before, m, k, limit);
    }
    PurgeEnds(m0, m, k, limit);
  }

  // ---------------------------------------------------------------- taking back

  method RemoveChild(children0: map<Id, set<Id>>, b: Id, parents: set<Id>) returns (children: map<Id, set<Id>>)
    requires b !in parents && parents <= children0.Keys
    ensures children == Unlinked(children0, b, parents)
  {
    children := children0 - {b};
    var rest := parents;
    assert children == Unlinked(children0, b, {});
    while rest != {}
      invariant rest <= parents && children == Unlinked(children0, b, parents - rest)
    {
      var p :| p in rest;
      UnlinkedMore(children0, b, parents - rest, p);
      assert parents - (rest - {p}) == parents - rest + {p};
      rest := rest - {p};
      children := children[p := children[p] - {b}];
    }
    assert parents - rest == parents;
  }

  /** Gives back the saved order numbers. */
  method RestoreOrders(orders0: map<Id, nat>, saved: map<Id, nat>, b: Id) returns (orders: map<Id, nat>)
    ensures orders == Restored(orders0, saved, b)
  {
    orders := orders0 - {b};
    var rest := saved.Keys;
    while rest != {}
      invariant rest <= saved.Keys && orders.Keys == orders0.Keys - {b}
      invariant forall x :: x in orders ==> orders[x] == if x in saved && x !in rest then saved[x] else orders0[x]
    {
      var x :| x in rest;
      rest := rest - {x};
      if x in orders {
        orders := orders[x := saved[x]];
      }
    }
  }

  // ---------------------------------------------------------------- load

  /** The main tip first, then the other tips; fails unless exactly one is marked as main. */
  method DbGetDagTips(stored: map<Id, bool>) returns (ok: bool, tips: seq<Id>)
    ensures ok <==> exists t :: t in stored && stored[t] && forall u :: u in stored && stored[u] ==> u == t
    ensures ok ==> tips != [] && tips[0] in stored && stored[tips[0]] && Elems(tips) == stored.Keys
  {
    var mainTip, others := MAX_ID, [];
    var found := false;
    var rest := stored.Keys;
    while rest != {}
      invariant rest <= stored.Keys
      invariant found ==> mainTip in stored && mainTip !in rest && stored[mainTip]
      invariant forall t :: t in stored && t !in rest && stored[t] ==> found && t == mainTip
      invariant forall t :: t in others <==> t in stored && t !in rest && !stored[t]
    {
      var t :| t in rest;
      rest := rest - {t};
      if stored[t] {
        if found {
          return false, [];
        }
        found, mainTip := true, t;
        continue;
      }
      others := others + [t];
    }
    if !found {
      return false, [];
    }
    ok, tips := true, [mainTip] + others;
    ElemsAre(tips, stored.Keys);
  }

  lemma OneMainTip(tips: set<Id>, mainTip: Id, stored: map<Id, bool>)
    requires TipsStored(tips, mainTip, stored) && mainTip in tips
    ensures exists t :: t in stored && stored[t] && forall u :: u in stored && stored[u] ==> u == t
    ensures forall t :: t in stored && stored[t] ==> t == mainTip
  {
    assert stored[mainTip];
  }

  /** Puts the listed tips in one after the other. */
  method LoadTips(children: map<Id, set<Id>>, list: seq<Id>) returns (ok: bool, tips: set<Id>)
    ensures ok <==> forall i :: 0 <= i < |list| ==> list[i] in children
    ensures ok && (forall i :: 0 <= i < |list| ==> children[list[i]] == {}) ==> tips == Elems(list)
  {
    tips := {};
    for i := 0 to |list|
      invariant forall j :: 0 <= j < i ==> list[j] in children
      invariant tips <= children.Keys
      invariant (forall j :: 0 <= j < i ==> children[list[j]] == {}) ==> tips == Elems(list[..i])
    {
      if list[i] !in children {
        return false, tips;
      }
      ghost var before := tips;
      tips := UpdateTips(children, tips, list[i]);
      assert list[..i + 1] == list[..i] + [list[i]];
      ElemsAre(list[..i + 1], Elems(list[..i]) + {list[i]});
      if forall j :: 0 <= j < i + 1 ==> children[list[j]] == {} {
        assert forall t :: t in Elems(list[..i]) ==> children[t] == {};
        assert (set t | t in before && children[t] == {}) == before;
      }
    }
    ok := true;
    assert list[..|list|] == list;
  }

  const MIN_BLOCK_PRUNE_SIZE: nat := 2000

  /** Whether the blocks of the main chain, down to a depth, are marked as such. */
  method CheckMainChainDb(g: Graph, tip: Id, mainChain: set<Id>, maxDepth: nat) returns (ok: bool)
    requires tip in g && maxDepth > 0
    ensures ok <==> forall i :: 0 <= i < |Chain(g, tip)| && i < maxDepth ==> Chain(g, tip)[i] in mainChain
  {
    var cur, depth := tip, 0;
    while true
      invariant cur in g && depth < |Chain(g, tip)| && depth < maxDepth && Chain(g, tip)[depth] == cur
      invariant forall i :: 0 <= i < depth ==> Chain(g, tip)[i] in mainChain
      decreases cur
    {
      ChainAt(g, tip, depth);
      depth := depth + 1;
      if cur !in mainChain {
        return false;
      }
      if g[cur].mainParent == MAX_ID || cur == 0 {
        break;
      }
      if depth >= maxDepth {
        break;
      }
      cur := g[cur].mainParent;
    }
    ok := true;
  }

  /** Whether the order numbers below the tip's, down to a depth, lead to blocks. */
  method CheckBlockOrderDb(g: map<Id, Node>, tipOrder: nat, index: map<nat, Id>, maxDepth: nat) returns (ok: bool)
    requires maxDepth > 0
    ensures ok <==> forall i :: 0 < i < tipOrder && tipOrder - i <= maxDepth ==> i in index && index[i] in g
  {
    if tipOrder <= 1 {
      return true;
    }
    var i, depth := tipOrder - 1, 0;
    while i > 0
      invariant depth == tipOrder - 1 - i && depth < maxDepth && 0 <= i < tipOrder
      invariant forall j :: i < j < tipOrder ==> j in index && index[j] in g
    {
      depth := depth + 1;
      if i !in index || index[i] !in g {
        return false;
      }
      if depth >= maxDepth {
        return true;
      }
      i := i - 1;
    }
    ok := true;
  }

  /** Splits the block records into what is fixed, the children and the order. */
  method ReadBlocks(blocks: map<Id, Record>, ghost m: Mem)
    returns (g: map<Id, Node>, children: map<Id, set<Id>>, orders: map<Id, nat>)
    requires m.children.Keys == m.g.Keys && m.orders.Keys == m.g.Keys && BlocksStored(m, blocks)
    ensures g == m.g && children == m.children && orders == m.orders
  {
    g := map b | b in blocks :: blocks[b].node;
    children := map b | b in blocks :: blocks[b].children;
    orders := map b | b in blocks :: blocks[b].order;
  }

  /** Reads the main tip and the tip set; the blocks of the list are put in as tips one by one. */
  method ReadTips(children: map<Id, set<Id>>, stored: map<Id, bool>, ghost tips0: set<Id>, ghost mainTip0: Id)
    returns (ok: bool, tips: set<Id>, mainTip: Id)
    requires TipsStored(tips0, mainTip0, stored) && mainTip0 in tips0 && Childless(children, tips0)
    ensures ok && tips == tips0 && mainTip == mainTip0
  {
    OneMainTip(tips0, mainTip0, stored);
    var found, list := DbGetDagTips(stored);
    assert found;
    mainTip := list[0];
    assert forall i :: 0 <= i < |list| ==> list[i] in Elems(list);
    ok, tips := LoadTips(children, list);
    ok := ok && mainTip in tips;
  }

  /** Whether every block of the diff-anticone bucket is there. */
  method FindAll(blocks: map<Id, Record>, diffs: set<Id>) returns (ok: bool, found: set<Id>)
    ensures (ok <==> diffs <= blocks.Keys) && found <= diffs && found <= blocks.Keys && (ok ==> found == diffs)
  {
    var rest := diffs;
    found := {};
    while rest != {}
      invariant found + rest == diffs && found <= blocks.Keys
    {
      var d :| d in rest;
      if d !in blocks {
        return false, found;
      }
      rest, found := rest - {d}, found + {d};
    }
    ok := true;
  }

  /** Reads a state back from the buckets of the state `m`.  The list of unordered blocks
      is read before tips are pruned, so that pruning anything makes the search for them fail.
      `left` is the state that the buckets hold in the end; after a failure the blocks found
      before the first missing one are all that is known of its unordered blocks. */
  method Load(db0: Db, k: nat, limit: nat, total: nat, now: int, ghost m: Mem)
    returns (ok: bool, r: Mem, db: Db, ghost left: Mem)
    requires MemOk(m, k) && m.total > 0 && DbOk(m, k, db0) && total == m.total
    ensures ok <==> NothingToDiscard(m, k, limit)
    ensures ok ==> r == m.(lastTime := now) && db == db0
    ensures MemOk(m.(lastTime := now), k) && MemOk(left, k) && DbOk(left, k, db) && NothingToDiscard(left, k, limit)
    ensures PrunedFrom(m.(lastTime := now), left, k) && left.g.Keys == m.g.Keys - Gone(m.(lastTime := now), k, limit)
    ensures r == left.(diffAnticone := r.diffAnticone) && r.diffAnticone <= left.diffAnticone
  {
    TimeIsFree(m, k, db0, now, limit);
    r := ReadState(db0, k, total, now, m);
    r, db := OptimizeTips(r, k, db0, limit);
    left := r;
    PrunedAreMissed(m.(lastTime := now), left, k);
    var all, found := FindAll(db.blocks, db0.diffAnticone);
    r := r.(diffAnticone := found);
    if !all {
      return false, r, db, left;
    }
    ok := CheckBuckets(r, db, k, left);
  }

  /** Reads blocks and tips; the unordered blocks are put in as listed. */
  method ReadState(db: Db, k: nat, total: nat, now: int, ghost m: Mem) returns (r: Mem)
    requires MemOk(m, k) && m.total > 0 && DbOk(m, k, db) && total == m.total
    ensures r == m.(lastTime := now)
  {
    MainTipFacts(m, k);
    var g, children, orders := ReadBlocks(db.blocks, m);
    var ok, tips, mainTip := ReadTips(children, db.tips, m.tips, m.mainTip);
    r := Mem(g, children, orders, tips, total, now, mainTip, 0, db.diffAnticone);
  }

  /** The two checks at the end pass on the buckets of a consistent state. */
  method CheckBuckets(r: Mem, db: Db, k: nat, ghost m: Mem) returns (ok: bool)
    requires MemOk(m, k) && m.total > 0 && DbOk(m, k, db) && r.g == m.g
    requires r.orders == m.orders && r.mainTip == m.mainTip
    ensures ok
  {
    MainTipFacts(m, k);
    LineIsStored(m, k, db);
    ok := CheckBlockOrderDb(r.g, r.orders[r.mainTip], db.order, MIN_BLOCK_PRUNE_SIZE);
    if ok {
      ok := CheckMainChainDb(r.g, r.mainTip, db.mainChain, MIN_BLOCK_PRUNE_SIZE);
    }
  }

  /** The last time is not tied to anything else. */
  lemma TimeIsFree(m: Mem, k: nat, db: Db, now: int, limit: nat)
    requires MemOk(m, k) && DbOk(m, k, db) && m.total > 0
    ensures var r := m.(lastTime := now); MemOk(r, k) && DbOk(r, k, db)
    ensures NothingToDiscard(m.(lastTime := now), k, limit) <==> NothingToDiscard(m, k, limit)
  {
    MemOkAtAnyTime(m, k, now);
    MainTipFacts(m, k);
    SameNothing(m, m.(lastTime := now), k, limit);
  }

  lemma SameNothing(m: Mem, r: Mem, k: nat, limit: nat)
    requires MemOk(m, k) && MemOk(r, k) && m.mainTip in m.g && m.total > 0 && r.total > 0
    requires r.g == m.g && r.orders == m.orders && r.mainTip == m.mainTip && r.tips == m.tips
    ensures NothingToDiscard(m, k, limit) <==> NothingToDiscard(r, k, limit)
  {
    assert m.tips <= m.g.Keys && m.tips <= m.orders.Keys;
    SameDiscardable(m, r, limit);
  }

  lemma MemOkAtAnyTime(m: Mem, k: nat, now: int)
    requires MemOk(m, k) && m.total > 0
    ensures MemOk(m.(lastTime := now), k)
  {
    assert Shape(m.(lastTime := now), k);
    assert Started(m.(lastTime := now), k);
  }

  lemma SameDiscardable(m: Mem, r: Mem, limit: nat)
    requires m.mainTip in m.g && r.g == m.g && r.orders == m.orders && r.mainTip == m.mainTip
    ensures forall t :: t in m.g && t in m.orders ==> (Discardable(m, limit, t) <==> Discardable(r, limit, t))
  {}

  /** Whatever has been pruned was unordered. */
  lemma PrunedAreMissed(m0: Mem, m: Mem, k: nat)
    requires MemOk(m0, k) && MemOk(m, k) && m0.total > 0 && PrunedFrom(m0, m, k)
    ensures m.g.Keys < m0.g.Keys ==> !(m0.diffAnticone <= m.g.Keys)
    ensures m0.diffAnticone <= m0.g.Keys && forall x :: x in m0.diffAnticone && x in m.g ==> x in m.diffAnticone
  {
    forall x | x in m0.diffAnticone && x in m.g ensures x in m.diffAnticone {
      UnorderedIffOutside(m0, k, x);
      UnorderedIffOutside(m, k, x);
    }
    if m.g.Keys < m0.g.Keys {
      var b :| b in m0.g && b !in m.g;
      UnorderedIffOutside(m0, k, b);
      if b !in m0.diffAnticone {
        assert false;
      }
    }
  }

  lemma LineIsStored(m: Mem, k: nat, db: Db)
    requires MemOk(m, k) && m.total > 0 && DbOk(m, k, db)
    ensures forall i :: 0 < i < m.orders[m.mainTip] ==> i in db.order && db.order[i] in m.g
    ensures forall i :: 0 <= i < |Chain(m.g, m.mainTip)| ==> Chain(m.g, m.mainTip)[i] in db.mainChain
  {
    MainTipFacts(m, k);
    forall i | 0 < i < m.orders[m.mainTip] ensures i in db.order && db.order[i] in m.g {
      OnLine(m.g, k, m.mainTip, i);
    }
    ElemsHaveAll(Chain(m.g, m.mainTip));
  }
}
