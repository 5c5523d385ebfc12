/** The block cache: which blocks are in memory, and which of them are linked to each other.

    The rest of the model speaks of all blocks at once.  Here a block is either loaded or only in
    the database, and a loaded block is linked to those parents and children that are loaded too. */
module Cache {
  import opened Dag
  import opened Anticone
  import opened State

  /** All blocks, wherever they are: parents and children match. */
  ghost predicate Logical(all: map<Id, Record>)
  {
    && (forall b, p {:trigger p in all[b].node.parents} :: b in all && p in all[b].node.parents ==> p in all && p != b)
    && (forall b, c {:trigger c in all[b].children} :: b in all && c in all[b].children ==> c in all && c != b)
    && (forall b, p {:trigger p in all[b].node.parents} ::
          b in all && p in all[b].node.parents ==> b in all[p].children)
    && (forall b, c {:trigger c in all[b].children} :: b in all && c in all[b].children ==> b in all[c].node.parents)
  }

  /** The block index of a consistent state is such a set of blocks. */
  lemma CommittedIsLogical(m: Mem, k: nat, blocks: map<Id, Record>)
    requires MemOk(m, k) && BlocksStored(m, blocks)
    ensures Logical(blocks)
  {
    NeighboursMatch(m.g, m.children, blocks);
  }

  lemma NeighboursMatch(g: Graph, children: map<Id, set<Id>>, blocks: map<Id, Record>)
    requires Inverse(g, children) && blocks.Keys == g.Keys
    requires forall b :: b in g ==> blocks[b].node == g[b] && blocks[b].children == children[b]
    ensures Logical(blocks)
  {
    forall b, c | b in blocks && c in blocks[b].children ensures c in blocks && c != b && b in blocks[c].node.parents {
      assert c in children[b];
    }
    forall b, p | b in blocks && p in blocks[b].node.parents ensures p in blocks && p != b && b in blocks[p].children {
      assert p in g[b].parents;
    }
  }

  /** A loaded block is linked to exactly those of its parents and children that are loaded. */
  ghost predicate Attached(all: map<Id, Record>, loaded: set<Id>, up: map<Id, set<Id>>, down: map<Id, set<Id>>)
    requires loaded <= all.Keys
  {
    && up.Keys == loaded && down.Keys == loaded
    && (forall b :: b in loaded ==> up[b] == all[b].node.parents * loaded && down[b] == all[b].children * loaded)
  }

  /** Links are mutual, and none leads to a block that is not loaded. */
  lemma LinksAreMutual(all: map<Id, Record>, loaded: set<Id>, up: map<Id, set<Id>>, down: map<Id, set<Id>>, b: Id,
                       c: Id)
    requires Logical(all) && loaded <= all.Keys && Attached(all, loaded, up, down) && b in loaded && c in loaded
    ensures c in down[b] <==> b in up[c]
    ensures up[b] <= loaded && down[b] <= loaded
  {
    assert c in all[b].children <==> b in all[c].node.parents;
  }

  /** Memory and database together hold the blocks: what is not waiting to be written is in the
      database as it is, and what is waiting is loaded. */
  ghost predicate Held(all: map<Id, Record>, loaded: map<Id, Record>, stored: map<Id, Record>, pending: set<Id>)
  {
    && Logical(all) && loaded.Keys <= all.Keys && stored.Keys <= all.Keys && pending <= loaded.Keys
    && (forall b :: b in loaded ==> loaded[b] == all[b])
    && (forall b :: b in all && b !in pending ==> b in stored && stored[b] == all[b])
  }

  // ---------------------------------------------------------------- links

  /** Links the loaded parents of a new block down to it. */
  method AttachToParents(parents: set<Id>, b: Id, down0: map<Id, set<Id>>)
    returns (mine: set<Id>, down: map<Id, set<Id>>)
    requires b !in parents
    ensures mine == parents * down0.Keys && down.Keys == down0.Keys
    ensures forall x :: x in down0 ==> down[x] == if x in parents then down0[x] + {b} else down0[x]
  {
    mine, down := {}, down0;
    var rest := parents;
    while rest != {}
      invariant rest <= parents && down.Keys == down0.Keys && mine == (parents - rest) * down0.Keys
      invariant forall x :: x in down0 ==> down[x] == if x in parents - rest then down0[x] + {b} else down0[x]
    {
      var p :| p in rest;
      rest := rest - {p};
      if p in down {
        down, mine := down[p := down[p] + {b}], mine + {p};
      }
    }
  }

  /** Takes the links to a block away from its neighbours. */
  method Detach(links0: map<Id, set<Id>>, b: Id, from: set<Id>) returns (links: map<Id, set<Id>>)
    requires from <= links0.Keys
    ensures links.Keys == links0.Keys
    ensures forall x :: x in links0 ==> links[x] == if x in from then links0[x] - {b} else links0[x]
  {
    links := links0;
    var rest := from;
    while rest != {}
      invariant rest <= from && links.Keys == links0.Keys
      invariant forall x :: x in links0 ==> links[x] == if x in from - rest then links0[x] - {b} else links0[x]
    {
      var p :| p in rest;
      rest := rest - {p};
      links := links[p := links[p] - {b}];
    }
  }

  lemma LoadedLinks(all: map<Id, Record>, loaded: set<Id>, b: Id, up: map<Id, set<Id>>, down: map<Id, set<Id>>,
                    up': map<Id, set<Id>>, down': map<Id, set<Id>>)
    requires Logical(all) && loaded <= all.Keys && Attached(all, loaded, up, down) && b in all && b !in loaded
    requires up'.Keys == loaded + {b} && down'.Keys == loaded + {b}
    requires up'[b] == all[b].node.parents * loaded && down'[b] == all[b].children * loaded
    requires forall x :: x in loaded ==> down'[x] == if x in all[b].node.parents then down[x] + {b} else down[x]
    requires forall x :: x in loaded ==> up'[x] == if x in all[b].children then up[x] + {b} else up[x]
    ensures Attached(all, loaded + {b}, up', down')
  {
    forall x | x in loaded
      ensures up'[x] == all[x].node.parents * (loaded + {b}) && down'[x] == all[x].children * (loaded + {b})
    {
      assert x in all[b].children <==> b in all[x].node.parents;
      assert x in all[b].node.parents <==> b in all[x].children;
    }
  }

  lemma UnloadedLinks(all: map<Id, Record>, loaded: set<Id>, b: Id, up: map<Id, set<Id>>, down: map<Id, set<Id>>,
                      up': map<Id, set<Id>>, down': map<Id, set<Id>>)
    requires Logical(all) && loaded <= all.Keys && Attached(all, loaded, up, down) && b in loaded
    requires up'.Keys == loaded - {b} && down'.Keys == loaded - {b}
    requires forall x :: x in loaded - {b} ==> down'[x] == if x in up[b] then down[x] - {b} else down[x]
    requires forall x :: x in loaded - {b} ==> up'[x] == if x in down[b] then up[x] - {b} else up[x]
    ensures Attached(all, loaded - {b}, up', down')
  {
    forall x | x in loaded - {b}
      ensures up'[x] == all[x].node.parents * (loaded - {b}) && down'[x] == all[x].children * (loaded - {b})
    {
      assert x in all[b].children <==> b in all[x].node.parents;
      assert x in all[b].node.parents <==> b in all[x].children;
    }
  }

  /** Connects a block with its loaded neighbours. */
  method Connect(b: Record, id: Id, up: map<Id, set<Id>>, down: map<Id, set<Id>>, ghost all: map<Id, Record>,
                 ghost loaded: set<Id>)
    returns (up': map<Id, set<Id>>, down': map<Id, set<Id>>)
    requires Logical(all) && loaded <= all.Keys && Attached(all, loaded, up, down)
    requires id in all && id !in loaded && b == all[id]
    ensures Attached(all, loaded + {id}, up', down')
  {
    var parents, newDown := AttachToParents(b.node.parents, id, down);
    var children, newUp := AttachToParents(b.children, id, up);
    up', down' := newUp[id := parents], newDown[id := children];
    LoadedLinks(all, loaded, id, up, down, up', down');
  }

  /** Cuts a block off from its neighbours. */
  method Disconnect(id: Id, up: map<Id, set<Id>>, down: map<Id, set<Id>>, ghost all: map<Id, Record>,
                    ghost loaded: set<Id>)
    returns (up': map<Id, set<Id>>, down': map<Id, set<Id>>)
    requires Logical(all) && loaded <= all.Keys && Attached(all, loaded, up, down) && id in loaded
    ensures Attached(all, loaded - {id}, up', down')
  {
    var newDown := Detach(down, id, up[id]);
    var newUp := Detach(up, id, down[id]);
    up', down' := newUp - {id}, newDown - {id};
    UnloadedLinks(all, loaded, id, up, down, up', down');
  }

  lemma HeldLoaded(all: map<Id, Record>, loaded: map<Id, Record>, stored: map<Id, Record>, pending: set<Id>, id: Id)
    requires Held(all, loaded, stored, pending) && id in stored && id !in loaded
    ensures id in all && stored[id] == all[id]
    ensures Held(all, loaded[id := stored[id]], stored, pending) && loaded[id := stored[id]].Keys == loaded.Keys + {id}
  {}

  lemma HeldUnloaded(all: map<Id, Record>, loaded: map<Id, Record>, stored: map<Id, Record>, pending: set<Id>, id: Id)
    requires Held(all, loaded, stored, pending) && id in loaded && id !in pending
    ensures Held(all, loaded - {id}, stored, pending) && (loaded - {id}).Keys == loaded.Keys - {id}
  {}

  lemma HeldWithOrder(all: map<Id, Record>, loaded: map<Id, Record>, stored: map<Id, Record>, pending: set<Id>, b: Id,
                      order: nat)
    requires Held(all, loaded, stored, pending) && b in loaded && Logical(all[b := all[b].(order := order)])
    ensures var now := loaded[b := loaded[b].(order := order)];
      Held(all[b := all[b].(order := order)], now, stored, pending + {b}) && now.Keys == loaded.Keys
  {}

  method WriteBlocks(loaded: map<Id, Record>, stored0: map<Id, Record>, pending: set<Id>, ghost all: map<Id, Record>)
    returns (stored: map<Id, Record>)
    requires Held(all, loaded, stored0, pending)
    ensures stored == all
  {
    stored := stored0;
    var rest := pending;
    while rest != {}
      invariant rest <= pending && stored.Keys <= all.Keys
      invariant forall b :: b in all && b !in rest ==> b in stored && stored[b] == all[b]
    {
      var b :| b in rest;
      rest := rest - {b};
      stored := stored[b := loaded[b]];
    }
    assert stored.Keys == all.Keys;
  }

  /** Blocks that are never evicted. */
  predicate Kept(b: Id, mainTip: Id, tips: set<Id>, pending: set<Id>) {
    b == 0 || b == mainTip || b in tips || b in pending
  }

  /** The loaded blocks that may be evicted: all but block 0, the main tip, the tips and the pending ones. */
  ghost function Candidates(loaded: map<Id, Record>, mainTip: Id, tips: set<Id>, pending: set<Id>): set<Id> {
    loaded.Keys - {0, mainTip} - tips - pending
  }

  /** Those of them that are more than `minSize` below the main tip. */
  ghost function TooOld(loaded: map<Id, Record>, among: set<Id>, mainHeight: nat, minSize: nat): (r: set<Id>)
    ensures r <= among
  {
    set b | b in among && b in loaded && loaded[b].node.height + minSize < mainHeight
  }

  /** Of the candidates at most as many go as blocks are too many, none of them young.  So many are looked at, in
      any order, and the old ones among them go: with few candidates all old ones, otherwise all that are looked
      at but for young ones. */
  ghost predicate Evicted(loaded: map<Id, Record>, candidates: set<Id>, old': set<Id>, minSize: nat, gone: set<Id>)
  {
    if |loaded| <= minSize then gone == {}
    else
      var need := |loaded| - minSize;
      && gone <= old' && |gone| <= need && (|candidates| <= need ==> gone == old')
      && (|candidates| > need ==> need <= |gone| + |candidates - old'|)
  }

  lemma {:induction false} SubsetSize(a: set<Id>, b: set<Id>)
    requires a <= b
    ensures |a| <= |b| && (|a| == |b| ==> a == b)
  {
    assert b == a + (b - a);
  }

  lemma KeptOrCandidate(loaded: map<Id, Record>, mainTip: Id, mainHeight: nat, tips: set<Id>, pending: set<Id>,
                        minSize: nat, b: Id)
    requires b in loaded
    ensures var candidates := Candidates(loaded, mainTip, tips, pending);
      && (b in candidates <==> !Kept(b, mainTip, tips, pending))
      && (b in TooOld(loaded, candidates, mainHeight, minSize) <==>
            b in candidates && loaded[b].node.height + minSize < mainHeight)
  {}

  /** One more block is taken from the rest. */
  lemma LookAt(candidates: set<Id>, old': set<Id>, rest: set<Id>, b: Id)
    requires b in rest
    ensures var seen, more := candidates - rest, candidates - (rest - {b});
      && (b !in candidates ==> more == seen)
      && (b in candidates ==>
            && more == seen + {b} && |more| == |seen| + 1
            && more * old' == seen * old' + if b in old' then {b} else {})
  {
    var seen, more := candidates - rest, candidates - (rest - {b});
    if b in candidates {
      assert more == seen + {b} && b !in seen;
    } else {
      assert more == seen;
    }
  }

  /** What has been looked at consists of the old blocks, which go, and of young ones. */
  lemma LookedAt(loaded: map<Id, Record>, candidates: set<Id>, old': set<Id>, minSize: nat, rest: set<Id>,
                 seen: set<Id>, gone: set<Id>)
    requires |loaded| > minSize && old' <= candidates && seen == candidates - rest && gone == seen * old'
    requires |seen| <= |loaded| - minSize && (rest == {} || |seen| == |loaded| - minSize)
    ensures Evicted(loaded, candidates, old', minSize, gone)
  {
    SubsetSize(seen, candidates);
    CountGone(candidates, old', seen, gone);
    NothingMinus(candidates, rest);
  }

  lemma NothingMinus(candidates: set<Id>, rest: set<Id>)
    ensures rest == {} ==> candidates - rest == candidates
  {}

  lemma CountGone(candidates: set<Id>, old': set<Id>, seen: set<Id>, gone: set<Id>)
    requires old' <= candidates && seen <= candidates && gone == seen * old'
    ensures gone <= old' && |gone| <= |seen| <= |gone| + |candidates - old'| && (seen == candidates ==> gone == old')
  {
    SubsetSize(gone, seen);
    SubsetSize(seen - old', candidates - old');
    assert seen == gone + (seen - old');
  }

  // ---------------------------------------------------------------- new blocks and blocks that go

  /** All blocks and a new one, which its parents have as a child. */
  ghost function Extended(all: map<Id, Record>, id: Id, b: Record): map<Id, Record> {
    (map x | x in all :: if x in b.node.parents then WithChild(all[x], id, true) else all[x])[id := b]
  }

  /** All blocks but one without children. */
  ghost function Reduced(all: map<Id, Record>, id: Id): map<Id, Record>
    requires id in all
  {
    map x | x in all && x != id ::
      if x in all[id].node.parents then all[x].(children := all[x].children - {id}) else all[x]
  }

  /** The blocks before the last one was taken up, with the numbers they had. */
  ghost function TakenBack(all: map<Id, Record>, id: Id, saved: map<Id, nat>): map<Id, Record>
    requires id in all
  {
    var low := Reduced(all, id);
    map x | x in low :: if x in saved then low[x].(order := saved[x]) else low[x]
  }

  /** `now` is `all` with a new block and with other numbers where the old ones are saved. */
  ghost predicate TakenUp(all: map<Id, Record>, now: map<Id, Record>, id: Id, b: Record, saved: map<Id, nat>)
  {
    && now.Keys == all.Keys + {id}
    && (forall x :: x in now ==> now[x] == Extended(all, id, b)[x].(order := now[x].order))
    && (forall x :: x in all ==> if x in saved then saved[x] == all[x].order else now[x].order == all[x].order)
  }

  /** Taking back undoes taking up, whatever has been re-numbered in between. */
  lemma TakingBackUndoes(all: map<Id, Record>, now: map<Id, Record>, id: Id, b: Record, saved: map<Id, nat>)
    requires Logical(all) && id !in all && b.node.parents <= all.Keys && TakenUp(all, now, id, b, saved)
    ensures TakenBack(now, id, saved) == all
  {
    var back := TakenBack(now, id, saved);
    assert now[id].node == b.node;
    assert back.Keys == all.Keys;
    forall x | x in all ensures back[x] == all[x] {
      assert id !in all[x].children;
      assert all[x].children + {id} - {id} == all[x].children;
    }
  }

  /** One more number is changed and its old value saved. */
  lemma TakenUpMore(all: map<Id, Record>, now: map<Id, Record>, id: Id, b: Record, saved: map<Id, nat>, x: Id,
                    order: nat)
    requires TakenUp(all, now, id, b, saved) && x in now && x !in saved
    ensures TakenUp(all, now[x := now[x].(order := order)], id, b, saved[x := now[x].order])
  {}

  /** Gives or takes a child. */
  function WithChild(r: Record, c: Id, add: bool): Record {
    r.(children := if add then r.children + {c} else r.children - {c})
  }

  method EditChildren(blocks0: map<Id, Record>, parents: set<Id>, c: Id, add: bool) returns (blocks: map<Id, Record>)
    requires parents <= blocks0.Keys
    ensures blocks.Keys == blocks0.Keys
    ensures forall x :: x in blocks ==> blocks[x] == if x in parents then WithChild(blocks0[x], c, add) else blocks0[x]
  {
    blocks := blocks0;
    var rest := parents;
    while rest != {}
      invariant rest <= parents && blocks.Keys == blocks0.Keys
      invariant forall x :: x in blocks ==>
        blocks[x] == if x in parents - rest then WithChild(blocks0[x], c, add) else blocks0[x]
    {
      var p :| p in rest;
      rest := rest - {p};
      blocks := blocks[p := WithChild(blocks[p], c, add)];
    }
  }

  method GiveBackNumbers(blocks0: map<Id, Record>, saved: map<Id, nat>) returns (blocks: map<Id, Record>)
    ensures blocks.Keys == blocks0.Keys
    ensures forall x :: x in blocks ==> blocks[x] == if x in saved then blocks0[x].(order := saved[x]) else blocks0[x]
  {
    blocks := blocks0;
    var rest := saved.Keys;
    while rest != {}
      invariant rest <= saved.Keys && blocks.Keys == blocks0.Keys
      invariant forall x :: x in blocks ==>
        blocks[x] == if x in saved && x !in rest then blocks0[x].(order := saved[x]) else blocks0[x]
    {
      var x :| x in rest;
      rest := rest - {x};
      if x in blocks {
        blocks := blocks[x := blocks[x].(order := saved[x])];
      }
    }
  }

  lemma ExtendedIsLogical(all: map<Id, Record>, id: Id, b: Record)
    requires Logical(all) && id !in all && b.node.parents <= all.Keys && b.children == {}
    ensures Logical(Extended(all, id, b))
  {
    var now := Extended(all, id, b);
    forall x, p | x in now && p in now[x].node.parents ensures p in now && p != x && x in now[p].children {
      if x != id {
        assert p in all[x].node.parents;
      }
    }
    forall x, c | x in now && c in now[x].children ensures c in now && c != x && x in now[c].node.parents {
      if c != id {
        assert c in all[x].children;
      }
    }
  }

  lemma ReducedIsLogical(all: map<Id, Record>, id: Id)
    requires Logical(all) && id in all && all[id].children == {}
    ensures Logical(Reduced(all, id))
  {
    var now := Reduced(all, id);
    forall x, p | x in now && p in now[x].node.parents ensures p in now && p != x && x in now[p].children {
      assert p in all[x].node.parents;
      assert p != id;
    }
    forall x, c | x in now && c in now[x].children ensures c in now && c != x && x in now[c].node.parents {
      assert c in all[x].children;
    }
  }

  /** Links a new block whose parents are all loaded. */
  method ConnectNew(b: Record, id: Id, up: map<Id, set<Id>>, down: map<Id, set<Id>>, ghost all: map<Id, Record>,
                    ghost loaded: set<Id>)
    returns (up': map<Id, set<Id>>, down': map<Id, set<Id>>)
    requires Logical(all) && loaded <= all.Keys && Attached(all, loaded, up, down)
    requires id !in all && b.children == {} && b.node.parents <= loaded
    ensures loaded + {id} <= Extended(all, id, b).Keys && Attached(Extended(all, id, b), loaded + {id}, up', down')
  {
    var parents, newDown := AttachToParents(b.node.parents, id, down);
    up', down' := up[id := parents], newDown[id := {}];
    NewLinks(all, loaded, id, b, up, down, up', down');
  }

  lemma NewLinks(all: map<Id, Record>, loaded: set<Id>, id: Id, b: Record, up: map<Id, set<Id>>, down: map<Id, set<Id>>,
                 up': map<Id, set<Id>>, down': map<Id, set<Id>>)
    requires Logical(all) && loaded <= all.Keys && Attached(all, loaded, up, down)
    requires id !in all && b.children == {} && b.node.parents <= loaded
    requires up'.Keys == loaded + {id} && down'.Keys == loaded + {id} && up'[id] == b.node.parents && down'[id] == {}
    requires forall x :: x in loaded ==>
      up'[x] == up[x] && down'[x] == if x in b.node.parents then down[x] + {id} else down[x]
    ensures loaded + {id} <= Extended(all, id, b).Keys && Attached(Extended(all, id, b), loaded + {id}, up', down')
  {
    var now := Extended(all, id, b);
    forall x | x in loaded
      ensures up'[x] == now[x].node.parents * (loaded + {id}) && down'[x] == now[x].children * (loaded + {id})
    {
      assert id !in all[x].node.parents && id !in all[x].children;
      OneMoreLoaded(all[x].node.parents, loaded, id);
      OneMoreLoaded(all[x].children, loaded, id);
      OneMoreChild(all[x].children, loaded, id);
    }
    assert b.node.parents * (loaded + {id}) == b.node.parents;
  }

  lemma OneMoreLoaded(s: set<Id>, loaded: set<Id>, id: Id)
    requires id !in s
    ensures s * (loaded + {id}) == s * loaded
  {}

  lemma OneMoreChild(s: set<Id>, loaded: set<Id>, id: Id)
    ensures (s + {id}) * (loaded + {id}) == s * loaded + {id}
  {
  }

  /** Cuts a block without children off for good. */
  method DisconnectForGood(id: Id, up: map<Id, set<Id>>, down: map<Id, set<Id>>, ghost all: map<Id, Record>,
                           ghost loaded: set<Id>)
    returns (up': map<Id, set<Id>>, down': map<Id, set<Id>>)
    requires Logical(all) && loaded <= all.Keys
    requires Attached(all, loaded, up, down) && id in loaded && all[id].children == {}
    ensures loaded - {id} <= Reduced(all, id).Keys && Attached(Reduced(all, id), loaded - {id}, up', down')
  {
    var newDown := Detach(down, id, up[id]);
    up', down' := up - {id}, newDown - {id};
    FewerLinks(all, loaded, id, up, down, up', down');
  }

  lemma FewerLinks(all: map<Id, Record>, loaded: set<Id>, id: Id, up: map<Id, set<Id>>, down: map<Id, set<Id>>,
                   up': map<Id, set<Id>>, down': map<Id, set<Id>>)
    requires Logical(all) && loaded <= all.Keys
    requires Attached(all, loaded, up, down) && id in loaded && all[id].children == {}
    requires up'.Keys == loaded - {id} && down'.Keys == loaded - {id}
    requires forall x :: x in loaded - {id} ==>
      up'[x] == up[x] && down'[x] == if x in up[id] then down[x] - {id} else down[x]
    ensures loaded - {id} <= Reduced(all, id).Keys && Attached(Reduced(all, id), loaded - {id}, up', down')
  {
    var now := Reduced(all, id);
    forall x | x in loaded - {id}
      ensures up'[x] == now[x].node.parents * (loaded - {id}) && down'[x] == now[x].children * (loaded - {id})
    {
      assert id !in all[x].node.parents;
      assert x in all[id].node.parents <==> id in all[x].children;
    }
  }

  /** Order numbers have nothing to do with links. */
  lemma SameLinks(all: map<Id, Record>, now: map<Id, Record>, loaded: set<Id>, up: map<Id, set<Id>>,
                  down: map<Id, set<Id>>)
    requires Logical(all) && loaded <= all.Keys && Attached(all, loaded, up, down) && now.Keys == all.Keys
    requires forall x :: x in all ==> now[x].node == all[x].node && now[x].children == all[x].children
    ensures Logical(now) && Attached(now, loaded, up, down)
  {}

  lemma HeldNew(all: map<Id, Record>, loaded: map<Id, Record>, stored: map<Id, Record>, pending: set<Id>, id: Id,
                b: Record,
                edited: map<Id, Record>)
    requires Held(all, loaded, stored, pending) && id !in all && b.children == {} && b.node.parents <= loaded.Keys
    requires edited.Keys == loaded.Keys
    requires forall x :: x in loaded ==>
      edited[x] == if x in b.node.parents then WithChild(loaded[x], id, true) else loaded[x]
    ensures Held(Extended(all, id, b), edited[id := b], stored, pending + {id} + b.node.parents)
    ensures edited[id := b].Keys == loaded.Keys + {id}
  {
    ExtendedIsLogical(all, id, b);
  }

  lemma HeldWithout(all: map<Id, Record>, loaded: map<Id, Record>, stored: map<Id, Record>, id: Id,
                    edited: map<Id, Record>, written: map<Id, Record>)
    requires Held(all, loaded, stored, {}) && id in loaded
    requires all[id].children == {} && all[id].node.parents <= loaded.Keys
    requires edited.Keys == loaded.Keys - {id} && written.Keys == stored.Keys - {id}
    requires forall x :: x in edited ==>
      edited[x] == if x in all[id].node.parents then WithChild(loaded[x], id, false) else loaded[x]
    requires forall x :: x in written ==>
      written[x] == if x in all[id].node.parents then WithChild(stored[x], id, false) else stored[x]
    ensures Held(Reduced(all, id), edited, written, {})
  {
    ReducedIsLogical(all, id);
  }

  lemma HeldTakenBack(all: map<Id, Record>, loaded: map<Id, Record>, stored: map<Id, Record>, pending: set<Id>, id: Id,
                      saved: map<Id, nat>, edited: map<Id, Record>)
    requires Held(all, loaded, stored, pending) && id in loaded
    requires all[id].children == {} && stored == TakenBack(all, id, saved)
    requires edited.Keys == loaded.Keys - {id} && all[id].node.parents <= loaded.Keys
    requires forall x :: x in edited ==>
      var low := if x in all[id].node.parents then WithChild(loaded[x], id, false) else loaded[x];
      edited[x] == if x in saved then low.(order := saved[x]) else low
    ensures Logical(TakenBack(all, id, saved)) && Held(TakenBack(all, id, saved), edited, stored, {})
  {
    ReducedIsLogical(all, id);
    var low, back := Reduced(all, id), TakenBack(all, id, saved);
    assert forall x :: x in low ==> back[x].node == low[x].node && back[x].children == low[x].children;
    SameBlocksAreLogical(low, back);
  }

  lemma SameBlocksAreLogical(all: map<Id, Record>, now: map<Id, Record>)
    requires Logical(all) && now.Keys == all.Keys
    requires forall x :: x in all ==> now[x].node == all[x].node && now[x].children == all[x].children
    ensures Logical(now)
  {}

  // ---------------------------------------------------------------- steps on values

  ghost predicate Showing(all: map<Id, Record>, loaded: map<Id, Record>, up: map<Id, set<Id>>, down: map<Id, set<Id>>,
                          stored: map<Id, Record>, pending: set<Id>)
  {
    Held(all, loaded, stored, pending) && Attached(all, loaded.Keys, up, down)
  }

  method PutIn(id: Id, b: Record, loaded: map<Id, Record>, up: map<Id, set<Id>>, down: map<Id, set<Id>>,
               ghost stored: map<Id, Record>, pending: set<Id>, ghost all: map<Id, Record>)
    returns (loaded': map<Id, Record>, up': map<Id, set<Id>>, down': map<Id, set<Id>>, pending': set<Id>)
    requires Showing(all, loaded, up, down, stored, pending) && id !in all
    requires b.children == {} && b.node.parents <= loaded.Keys
    ensures Showing(Extended(all, id, b), loaded', up', down', stored, pending')
    ensures pending' == pending + {id} + b.node.parents
  {
    pending' := pending + {id} + b.node.parents;
    up', down' := ConnectNew(b, id, up, down, all, loaded.Keys);
    var edited := EditChildren(loaded, b.node.parents, id, true);
    HeldNew(all, loaded, stored, pending, id, b, edited);
    loaded' := edited[id := b];
  }

  method PutBack(id: Id, saved: map<Id, nat>, loaded: map<Id, Record>, up: map<Id, set<Id>>, down: map<Id, set<Id>>,
                 ghost stored: map<Id, Record>, ghost pending: set<Id>, ghost all: map<Id, Record>)
    returns (loaded': map<Id, Record>, up': map<Id, set<Id>>, down': map<Id, set<Id>>)
    requires Showing(all, loaded, up, down, stored, pending) && id in loaded && all[id].children == {}
    requires all[id].node.parents <= loaded.Keys && stored == TakenBack(all, id, saved)
    ensures Showing(TakenBack(all, id, saved), loaded', up', down', stored, {})
  {
    var parents := loaded[id].node.parents;
    up', down' := DisconnectForGood(id, up, down, all, loaded.Keys);
    WithoutIt(all, id);
    var edited := EditChildren(loaded - {id}, parents, id, false);
    loaded' := GiveBackNumbers(edited, saved);
    HeldTakenBack(all, loaded, stored, pending, id, saved, loaded');
    NumbersOnly(all, id, saved, loaded.Keys - {id}, up', down');
  }

  lemma WithoutIt(all: map<Id, Record>, id: Id)
    requires Logical(all) && id in all
    ensures id !in all[id].node.parents
  {}

  lemma NumbersOnly(all: map<Id, Record>, id: Id, saved: map<Id, nat>, loaded: set<Id>, up: map<Id, set<Id>>,
                    down: map<Id, set<Id>>)
    requires Logical(all) && id in all && all[id].children == {}
    requires loaded <= Reduced(all, id).Keys && Attached(Reduced(all, id), loaded, up, down)
    ensures loaded <= TakenBack(all, id, saved).Keys && Attached(TakenBack(all, id, saved), loaded, up, down)
  {
    ReducedIsLogical(all, id);
    SameLinks(Reduced(all, id), TakenBack(all, id, saved), loaded, up, down);
  }

  method TakeOut(id: Id, parents: set<Id>, loaded: map<Id, Record>, up: map<Id, set<Id>>, down: map<Id, set<Id>>,
                 stored: map<Id, Record>, ghost all: map<Id, Record>)
    returns (loaded': map<Id, Record>, up': map<Id, set<Id>>, down': map<Id, set<Id>>, stored': map<Id, Record>)
    requires Showing(all, loaded, up, down, stored, {}) && id in loaded && all[id].children == {}
    requires parents == all[id].node.parents && parents <= loaded.Keys
    ensures Showing(Reduced(all, id), loaded', up', down', stored', {}) && stored' == Reduced(all, id)
  {
    up', down' := DisconnectForGood(id, up, down, all, loaded.Keys);
    WithoutIt(all, id);
    loaded' := EditChildren(loaded - {id}, parents, id, false);
    stored' := EditChildren(stored - {id}, parents, id, false);
    HeldWithout(all, loaded, stored, id, loaded', stored');
  }

  // ---------------------------------------------------------------- the cache

  class BlockCache {
    var loaded: map<Id, Record>
    var up: map<Id, set<Id>>
    var down: map<Id, set<Id>>
    var stored: map<Id, Record>
    var pending: set<Id>

    /** The cache shows the blocks `all`. */
    ghost predicate Shows(all: map<Id, Record>)
      reads this
    {
      Showing(all, loaded, up, down, stored, pending)
    }

    /** After a start nothing is loaded and nothing waits. */
    constructor (blocks: map<Id, Record>)
      requires Logical(blocks)
      ensures Shows(blocks) && loaded == map[] && pending == {}
    {
      loaded, up, down, stored, pending := map[], map[], map[], blocks, {};
    }

    /** Loads a block that is not in memory and connects it with its loaded neighbours. */
    method LoadBlock(id: Id, ghost all: map<Id, Record>) returns (found: bool)
      requires Shows(all) && id !in loaded
      modifies this`loaded, this`up, this`down
      ensures Shows(all) && (found <==> id in all)
      ensures loaded.Keys == old(loaded.Keys) + if found then {id} else {}
    {
      if id !in stored {
        return false;
      }
      HeldLoaded(all, loaded, stored, pending, id);
      var newUp, newDown := Connect(stored[id], id, up, down, all, loaded.Keys);
      up, down, loaded := newUp, newDown, loaded[id := stored[id]];
      found := true;
    }

    /** Whatever is loaded at the moment, looking a block up gives the block. */
    method GetBlockById(id: Id, ghost all: map<Id, Record>) returns (found: bool, b: Record)
      requires Shows(all)
      modifies this`loaded, this`up, this`down
      ensures Shows(all) && (found <==> id in all) && (found ==> b == all[id])
      ensures loaded.Keys == old(loaded.Keys) + if found then {id} else {}
    {
      found := id in loaded;
      b := Record(Node(0, 0, {}, 0, 0, 0, 0, map[], map[]), {}, 0);
      if !found {
        found := LoadBlock(id, all);
      }
      if found {
        b := loaded[id];
      }
    }

    /** Evicts a block that is written. */
    method UnloadBlock(id: Id, ghost all: map<Id, Record>)
      requires Shows(all) && id in loaded && id !in pending
      modifies this`loaded, this`up, this`down
      ensures Shows(all) && loaded.Keys == old(loaded.Keys) - {id}
    {
      HeldUnloaded(all, loaded, stored, pending, id);
      var newUp, newDown := Disconnect(id, up, down, all, loaded.Keys);
      up, down, loaded := newUp, newDown, loaded - {id};
    }

    /** Loads blocks that are not in memory yet. */
    method LoadAll(ids: set<Id>, ghost all: map<Id, Record>)
      requires Shows(all) && ids <= all.Keys
      modifies this`loaded, this`up, this`down
      ensures Shows(all) && loaded.Keys == old(loaded.Keys) + ids
    {
      var rest := ids;
      ghost var done := {};
      assert loaded.Keys + done == loaded.Keys;
      while rest != {}
        invariant Shows(all) && done + rest == ids && loaded.Keys == old(loaded.Keys) + done
      {
        var p :| p in rest;
        OneMoreDone(old(loaded.Keys), done, rest, p);
        var _, _ := GetBlockById(p, all);
        rest, done := rest - {p}, done + {p};
      }
      assert done == ids;
    }

    /** All parents of a loaded block in memory and connected. */
    method GetParents(b: Id, ghost all: map<Id, Record>) returns (parents: set<Id>)
      requires Shows(all) && b in loaded
      modifies this`loaded, this`up, this`down
      ensures Shows(all) && b in loaded && parents == all[b].node.parents && up[b] == parents && parents <= loaded.Keys
    {
      parents := loaded[b].node.parents;
      LoadAll(parents, all);
      assert parents * loaded.Keys == parents;
    }

    /** All children of a loaded block in memory and connected. */
    method GetChildren(b: Id, ghost all: map<Id, Record>) returns (children: set<Id>)
      requires Shows(all) && b in loaded
      modifies this`loaded, this`up, this`down
      ensures Shows(all) && b in loaded && children == all[b].children && down[b] == children && children <= loaded.Keys
    {
      children := loaded[b].children;
      LoadAll(children, all);
      assert children * loaded.Keys == children;
    }

    /** Takes a new block up: it becomes a child of its parents, and all of them wait to be written. */
    method TakeUp(id: Id, b: Record, ghost all: map<Id, Record>)
      requires Shows(all) && id !in all && b.children == {} && b.node.parents <= all.Keys
      modifies this`loaded, this`up, this`down, this`pending
      ensures Shows(Extended(all, id, b)) && pending == old(pending) + {id} + b.node.parents
    {
      LoadAll(b.node.parents, all);
      TakeUpLoaded(id, b, all);
    }

    method TakeUpLoaded(id: Id, b: Record, ghost all: map<Id, Record>)
      requires Shows(all) && id !in all && b.children == {} && b.node.parents <= loaded.Keys
      modifies this`loaded, this`up, this`down, this`pending
      ensures Shows(Extended(all, id, b)) && pending == old(pending) + {id} + b.node.parents
    {
      var newLoaded, newUp, newDown, waiting := PutIn(id, b, loaded, up, down, stored, pending, all);
      loaded, up, down, pending := newLoaded, newUp, newDown, waiting;
    }

    /** Takes the last block back: its parents lose it, renumbered blocks get their numbers back,
        and nothing waits any more; the database has not been touched. */
    method TakeBack(id: Id, saved: map<Id, nat>, ghost all: map<Id, Record>)
      requires Shows(all) && id in pending && all[id].children == {} && all[id].node.parents <= pending
      requires stored == TakenBack(all, id, saved)
      modifies this`loaded, this`up, this`down, this`pending
      ensures Shows(TakenBack(all, id, saved)) && pending == {}
    {
      var newLoaded, newUp, newDown := PutBack(id, saved, loaded, up, down, stored, pending, all);
      loaded, up, down, pending := newLoaded, newUp, newDown, {};
    }

    /** Gives a block a new number, loading it if need be. */
    method LoadAndSetOrder(x: Id, order: nat, ghost all: map<Id, Record>) returns (before: nat)
      requires Shows(all) && x in all
      modifies this`loaded, this`up, this`down, this`pending
      ensures Shows(all[x := all[x].(order := order)]) && before == all[x].order && pending == old(pending) + {x}
    {
      var found, record := GetBlockById(x, all);
      before := record.order;
      SetOrder(x, order, all);
    }

    /** Gives new numbers to some blocks and saves the old ones. */
    method RenumberAll(numbers: map<Id, nat>, id: Id,
                       ghost b: Record, ghost all: map<Id, Record>, ghost start: map<Id, Record>)
      returns (saved: map<Id, nat>, ghost now: map<Id, Record>)
      requires Shows(start) && TakenUp(all, start, id, b, map[]) && numbers.Keys <= start.Keys
      modifies this`loaded, this`up, this`down, this`pending
      ensures Shows(now) && TakenUp(all, now, id, b, saved) && old(pending) <= pending
    {
      saved, now := map[], start;
      var rest := numbers.Keys;
      while rest != {}
        invariant Shows(now) && TakenUp(all, now, id, b, saved) && old(pending) <= pending
        invariant rest <= numbers.Keys && rest <= now.Keys && rest !! saved.Keys
      {
        var x :| x in rest;
        rest := rest - {x};
        TakenUpMore(all, now, id, b, saved, x, numbers[x]);
        var before := LoadAndSetOrder(x, numbers[x], now);
        saved, now := saved[x := before], now[x := now[x].(order := numbers[x])];
      }
    }

    /** A block is taken up, others are re-numbered, and everything is taken back: memory shows
        the blocks as before, and nothing waits to be written. */
    method TakeUpAndBack(id: Id, b: Record, numbers: map<Id, nat>, ghost all: map<Id, Record>)
      requires Shows(all) && pending == {} && stored == all
      requires id !in all && b.children == {} && b.node.parents <= all.Keys && numbers.Keys <= all.Keys + {id}
      modifies this`loaded, this`up, this`down, this`pending
      ensures Shows(all) && pending == {}
    {
      TakeUp(id, b, all);
      ghost var now;
      var saved;
      saved, now := RenumberAll(numbers, id, b, all, Extended(all, id, b));
      TakingBackUndoes(all, now, id, b, saved);
      TakeBack(id, saved, now);
    }

    /** Removes a tip from memory and database; its parents lose it in both. */
    method RemoveTip(id: Id, ghost all: map<Id, Record>)
      requires Shows(all) && id in loaded && all[id].children == {} && pending == {}
      modifies this`loaded, this`up, this`down, this`stored
      ensures Shows(Reduced(all, id)) && pending == {} && stored == Reduced(all, id)
    {
      var parents := GetParents(id, all);
      RemoveLoadedTip(id, parents, all);
    }

    method RemoveLoadedTip(id: Id, parents: set<Id>, ghost all: map<Id, Record>)
      requires Shows(all) && id in loaded && all[id].children == {} && pending == {}
      requires parents == all[id].node.parents && parents <= loaded.Keys
      modifies this`loaded, this`up, this`down, this`stored
      ensures Shows(Reduced(all, id)) && pending == {} && stored == Reduced(all, id)
    {
      var newLoaded, newUp, newDown, written := TakeOut(id, parents, loaded, up, down, stored, all);
      loaded, up, down, stored := newLoaded, newUp, newDown, written;
    }

    /** Evicts old blocks, but no tip, not block 0, not the main tip and nothing that waits to be written. */
    method UpdateBlockCache(mainTip: Id, mainHeight: nat, tips: set<Id>, minSize: nat, ghost all: map<Id, Record>)
      returns (ghost gone: set<Id>)
      requires Shows(all)
      modifies this`loaded, this`up, this`down
      ensures Shows(all) && loaded.Keys == old(loaded.Keys) - gone && gone <= old(loaded.Keys)
      ensures var candidates := old(Candidates(loaded, mainTip, tips, pending));
        Evicted(old(loaded), candidates, TooOld(old(loaded), candidates, mainHeight, minSize), minSize, gone)
      ensures forall b :: b in gone ==> b != 0 && b != mainTip && b !in tips && b !in pending
    {
      gone := {};
      if |loaded| > minSize {
        var deletes := ChooseOld(loaded, mainTip, mainHeight, tips, pending, minSize);
        UnloadAll(deletes, all);
        gone := deletes;
      }
    }

    method UnloadAll(blocks: set<Id>, ghost all: map<Id, Record>)
      requires Shows(all) && blocks <= loaded.Keys && blocks !! pending
      modifies this`loaded, this`up, this`down
      ensures Shows(all) && loaded.Keys == old(loaded.Keys) - blocks
    {
      var rest := blocks;
      ghost var gone := {};
      while rest != {}
        invariant Shows(all) && loaded.Keys == old(loaded.Keys) - gone && gone + rest == blocks && gone !! rest
      {
        var b :| b in rest;
        OneGone(old(loaded.Keys), blocks, gone, rest, b);
        UnloadBlock(b, all);
        rest, gone := rest - {b}, gone + {b};
      }
      assert gone == blocks;
    }

    /** Gives a loaded block a new order number; it then waits to be written. */
    method SetOrder(b: Id, order: nat, ghost all: map<Id, Record>)
      requires Shows(all) && b in loaded
      modifies this`loaded, this`pending
      ensures b in all && Shows(all[b := all[b].(order := order)]) && pending == old(pending) + {b}
      ensures loaded.Keys == old(loaded.Keys)
    {
      OnlyTheOrder(all, b, order, loaded.Keys, up, down);
      HeldWithOrder(all, loaded, stored, pending, b, order);
      loaded := loaded[b := loaded[b].(order := order)];
      pending := pending + {b};
    }

    /** Writes what is waiting. */
    method Write(ghost all: map<Id, Record>)
      requires Shows(all)
      modifies this`stored, this`pending
      ensures Shows(all) && pending == {} && stored == all
    {
      stored := WriteBlocks(loaded, stored, pending, all);
      pending := {};
    }
  }

  /** Old blocks that may go, among as many candidates as blocks are too many, looked at in any order. */
  method ChooseOld(loaded: map<Id, Record>, mainTip: Id, mainHeight: nat, tips: set<Id>, pending: set<Id>, minSize: nat)
    returns (deletes: set<Id>)
    requires |loaded| > minSize
    ensures deletes <= loaded.Keys && deletes !! pending
    ensures var candidates := Candidates(loaded, mainTip, tips, pending);
      Evicted(loaded, candidates, TooOld(loaded, candidates, mainHeight, minSize), minSize, deletes)
  {
    ghost var candidates := Candidates(loaded, mainTip, tips, pending);
    ghost var tooOld, seen := TooOld(loaded, candidates, mainHeight, minSize), {};
    deletes := {};
    var rest, need := loaded.Keys, |loaded| - minSize;
    while rest != {}
      invariant rest <= loaded.Keys && need == |loaded| - minSize - |seen| && need > 0
      invariant seen == candidates - rest && deletes == seen * tooOld
    {
      var b: Id :| b in rest;
      LookAt(candidates, tooOld, rest, b);
      KeptOrCandidate(loaded, mainTip, mainHeight, tips, pending, minSize, b);
      rest, seen := rest - {b}, candidates - (rest - {b});
      if Kept(b, mainTip, tips, pending) {
        continue;
      }
      if loaded[b].node.height + minSize < mainHeight {
        deletes := deletes + {b};
      }
      need := need - 1;
      if need <= 0 {
        break;
      }
    }
    LookedAt(loaded, candidates, tooOld, minSize, rest, seen, deletes);
  }

  lemma OneMoreDone(start: set<Id>, done: set<Id>, rest: set<Id>, p: Id)
    requires p in rest
    ensures start + done + {p} == start + (done + {p}) && done + {p} + (rest - {p}) == done + rest
  {}

  lemma OneGone(start: set<Id>, blocks: set<Id>, gone: set<Id>, rest: set<Id>, b: Id)
    requires gone + rest == blocks && gone !! rest && b in rest && blocks <= start
    ensures b in start - gone && start - gone - {b} == start - (gone + {b})
    ensures gone + {b} + (rest - {b}) == blocks && gone + {b} !! rest - {b}
  {}

  lemma OnlyTheOrder(all: map<Id, Record>, b: Id, order: nat, loaded: set<Id>, up: map<Id, set<Id>>,
                     down: map<Id, set<Id>>)
    requires Logical(all) && b in all && loaded <= all.Keys && Attached(all, loaded, up, down)
    ensures var after := all[b := all[b].(order := order)];
      Logical(after) && after.Keys == all.Keys && Attached(after, loaded, up, down)
  {
    var after := all[b := all[b].(order := order)];
    assert forall x :: x in all ==> after[x].node == all[x].node && after[x].children == all[x].children;
  }
}
