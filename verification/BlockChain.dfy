/** The way of a block through a node: the main parent is checked, the block is
    added to the DAG, and the result is committed.  Whole runs are built from it. */
module BlockChain {
  import opened Dag
  import opened Blue
  import opened Spec
  import opened State
  import opened EditScript
  import opened Checks
  import opened Persist
  import opened MeerDag
  import opened Convergence

  type Report = (seq<OldEntry>, seq<Id>)

  /** All parents are known and the first one is the bluest. */
  ghost predicate BluestFirst(g: map<Id, Node>, ids: map<nat, Id>, hashes: seq<nat>)
  {
    && hashes != [] && (forall i :: 0 <= i < |hashes| ==> hashes[i] in ids)
    && Closed(g) && Elems(ParentIds(ids, hashes)) <= g.Keys
    && IsBluest(g, Elems(ParentIds(ids, hashes)), ids[hashes[0]])
  }

  /** Finds the bluest parent and compares its hash with the first of the list. */
  method MainParentIsFirst(g: Graph, ids: map<nat, Id>, hashes: seq<nat>) returns (ok: bool)
    requires DistinctHashes(g) && IdsStored(g, ids)
    ensures ok <==> BluestFirst(g, ids, hashes)
  {
    if |hashes| == 0 {
      return false;
    }
    var list;
    ok, list := FindParents(ids, hashes, g);
    if ok {
      var parents := set p | p in list;
      assert list[0] in parents && parents == Elems(list);
      var mainParent := GetBluest(g, parents);
      ok := g[mainParent].hash == hashes[0];
      FirstIsBluest(g, ids, list, hashes, mainParent);
    }
  }

  lemma FirstIsBluest(g: Graph, ids: map<nat, Id>, list: seq<Id>, hashes: seq<nat>, mainParent: Id)
    requires DistinctHashes(g) && IdsStored(g, ids) && hashes != [] && |list| == |hashes|
    requires hashes[0] in ids && list[0] == ids[hashes[0]]
    requires Elems(list) <= g.Keys && IsBluest(g, Elems(list), mainParent)
    ensures g[mainParent].hash == hashes[0] <==> IsBluest(g, Elems(list), ids[hashes[0]])
  {
    var first := ids[hashes[0]];
    assert first in Elems(list);
    if g[mainParent].hash == hashes[0] {
      assert SameHash(g, first, mainParent);
    }
    if IsBluest(g, Elems(list), first) {
      BluestUnique(g, Elems(list), first, mainParent);
    }
  }

  method CheckMainParent(m: Mem, k: nat, db: Db, hashes: seq<nat>) returns (ok: bool)
    requires Sound(m, k, db)
    ensures ok <==> BluestFirst(m.g, db.ids, hashes)
  {
    assert Broken(OfSound, m);
    ok := MainParentIsFirst(m.g, db.ids, hashes);
  }

  /** The check of the main parent is what adding relies on. */
  lemma CheckedIsProper(m: Mem, k: nat, db: Db, data: BlockData)
    requires Sound(m, k, db) && BluestFirst(m.g, db.ids, data.parents)
    ensures Proper(m, db.ids, data)
  {
    assert Broken(OfSound, m);
    if Acceptable(m, db.ids, data) && m.total > 0 {
      var list := ParentIds(db.ids, data.parents);
      assert list[0] == db.ids[data.parents[0]] && list[0] in Elems(list);
      BluestFirstSuffices(m.g, list);
      BluestUnique(m.g, Elems(list), list[0], Bluest(m.g, Elems(list)));
    }
  }

  /** Takes a block up, unless its first parent is not the main parent, a rule outside
      the DAG (`valid`) speaks against it, or the DAG refuses it.  With `fast` only the DAG is
      asked; then nothing but the caller vouches for the parent list.  `grown` is the state
      with the block, before tips are pruned. */
  method MaybeAcceptBlock(dag: MeerDag, data: BlockData, valid: bool, fast: bool)
    returns (accepted: bool, report: Report, ghost grown: Mem)
    requires dag.Stored() && 0 < dag.mem.total < MAX_ID
    requires fast ==> Proper(dag.mem, dag.db.ids, data)
    modifies dag
    ensures dag.Stored()
    ensures !fast ==> accepted == old(Takes(dag.mem, dag.db.ids, data, valid))
    ensures fast ==> accepted == old(Acceptable(dag.mem, dag.db.ids, data))
    ensures dag.mem.total == old(dag.mem.total) + if accepted then 1 else 0
    ensures accepted ==> Grown(old(dag.mem), grown, dag.k, old(dag.db.ids), data, report.0, report.1)
    ensures accepted ==> Trimmed(grown, dag.mem, dag.k, dag.tipsDisLimit) && Lean(dag.mem, dag.k, dag.tipsDisLimit)
    ensures !accepted ==> dag.mem == old(dag.mem) && dag.db == old(dag.db)
  {
    report, grown := ([], []), dag.mem;
    if !fast {
      accepted := CheckMainParent(dag.mem, dag.k, dag.db, data.parents);
      if !accepted || !valid {
        return false, report, grown;
      }
      CheckedIsProper(dag.mem, dag.k, dag.db, data);
    }
    var news, olds, tipChanged;
    accepted, news, olds, tipChanged := dag.AddBlock(data);
    if accepted {
      grown := dag.mem;
      dag.Commit();
      report := (olds, news);
    }
  }

  /** What a block has to meet. */
  ghost predicate Takes(m: Mem, ids: map<nat, Id>, data: BlockData, valid: bool)
  {
    valid && BluestFirst(m.g, ids, data.parents) && Acceptable(m, ids, data)
  }

  /** A block that has just been taken up is never among the tips pruned with it. */
  lemma NewBlockStays(m: Mem, grown: Mem, r: Mem, k: nat, limit: nat, ids: map<nat, Id>, data: BlockData,
                      report: Report)
    requires Grown(m, grown, k, ids, data, report.0, report.1) && Trimmed(grown, r, k, limit)
    ensures m.total in r.g && r.g[m.total].hash == data.hash && r.g[m.total].priority == data.priority
  {
    GrownIs(m, grown, k, ids, data, report.0, report.1);
    TrimmedIs(grown, r, k, limit);
    var b := m.total;
    MainTipFacts(grown, k);
    if b in Gone(grown, k, limit) {
      ConeBounds(grown.g, b);
      assert false;
    }
  }

  // ---------------------------------------------------------------- runs

  /** What can happen to a node between two blocks. */
  datatype Event =
    | Arrival(data: BlockData, valid: bool)     // a block arrives and is taken up or not
    | Attempt(data: BlockData)                  // a block is added and then taken back
    | Restart(now: int)                         // memory is lost and read back

  /** A node between two events, the reports so far, the blocks taken up so far, and those of
      them that have been pruned. */
  datatype Point = Point(mem: Mem, db: Db, reports: seq<Report>, accepted: set<Sig>, lost: set<Sig>)

  ghost function SigOf(data: BlockData): Sig {
    Sig(data.hash, data.priority, set h | h in data.parents)
  }

  /** The first block; whatever it lists as parents is not looked at. */
  ghost function GenesisSig(data: BlockData): Sig {
    Sig(data.hash, data.priority, {})
  }

  /** Following the reports from the empty order on gives the order. */
  ghost predicate Retold(m: Mem, k: nat, reports: seq<Report>)
  {
    forall s {:trigger Broken(s, m)} :: Broken(s, m) && s == OfRetold ==>
      MemOk(m, k) && Replay([], reports) == Line(m, k)
  }

  /** The blocks of the state are those taken up, but for those pruned. */
  ghost predicate Counted(m: Mem, accepted: set<Sig>, lost: set<Sig>)
  {
    forall s {:trigger Broken(s, m)} :: Broken(s, m) && s == OfCounted ==>
      Closed(m.g) && Blocks(m.g) + lost == accepted
  }

  /** The invariant of every run. */
  ghost predicate Running(p: Point, k: nat, limit: nat)
  {
    && 0 < p.mem.total && Sound(p.mem, k, p.db) && Lean(p.mem, k, limit)
    && Retold(p.mem, k, p.reports) && Counted(p.mem, p.accepted, p.lost)
  }

  /** The blocks that `r` has lost compared with `m`. */
  ghost function Lost(m: Mem, r: Mem): set<Sig> {
    if Closed(m.g) && Closed(r.g) then Blocks(m.g) - Blocks(r.g) else {}
  }

  /** From `p` to `q` the block is added, hopeless blocks are pruned, and the report says how the order changed. */
  ghost predicate Advanced(p: Point, q: Point, k: nat, limit: nat, data: BlockData, sig: Sig, grown: Mem,
                           report: Report)
  {
    && Grown(p.mem, grown, k, p.db.ids, data, report.0, report.1) && Trimmed(grown, q.mem, k, limit)
    && q.reports == p.reports + [report] && q.accepted == p.accepted + {sig} && q.lost == p.lost + Lost(grown, q.mem)
  }

  /** What an event does. */
  ghost predicate Follows(p: Point, q: Point, k: nat, limit: nat, event: Event)
  {
    match event
    case Arrival(data, valid) =>
      if Takes(p.mem, p.db.ids, data, valid)
      then exists grown, report :: Advanced(p, q, k, limit, data, SigOf(data), grown, report)
      else q == p
    case Attempt(data) => q == p
    case Restart(now) => q == p.(mem := p.mem.(lastTime := now))
  }

  lemma RetoldMore(m: Mem, grown: Mem, r: Mem, k: nat, limit: nat, ids: map<nat, Id>, data: BlockData,
                   reports: seq<Report>, report: Report)
    requires Retold(m, k, reports) && Grown(m, grown, k, ids, data, report.0, report.1) && Trimmed(grown, r, k, limit)
    ensures Retold(r, k, reports + [report])
  {
    assert Broken(OfRetold, m) && Broken(OfGrown, m) && Broken(OfTrimmed, grown);
    ReplaySnoc([], reports, Line(m, k), Line(r, k), report.0, report.1);
  }

  lemma CountedMore(m: Mem, grown: Mem, r: Mem, k: nat, limit: nat, db: Db, data: BlockData, report: Report,
                    accepted: set<Sig>, lost: set<Sig>, sig: Sig)
    requires Sound(m, k, db) && Counted(m, accepted, lost) && Grown(m, grown, k, db.ids, data, report.0, report.1)
    requires Trimmed(grown, r, k, limit) && sig == if m.total == 0 then GenesisSig(data) else SigOf(data)
    ensures Counted(r, accepted + {sig}, lost + Lost(grown, r))
  {
    assert Broken(OfSound, m) && Broken(OfCounted, m) && Broken(OfGrown, m) && Broken(OfTrimmed, grown);
    NewSig(m, grown, k, db.ids, data, sig);
    OneMoreBlock(m.g, grown.g, m.total);
    BlocksGrow(r.g, grown.g);
    Balance(Blocks(m.g), Blocks(grown.g), Blocks(r.g), accepted, lost, sig);
  }

  lemma Balance(before: set<Sig>, grown: set<Sig>, after: set<Sig>, accepted: set<Sig>, lost: set<Sig>, sig: Sig)
    requires before + lost == accepted && grown == before + {sig} && after <= grown
    ensures after + (lost + (grown - after)) == accepted + {sig}
  {}

  /** The new block is the one that was sent. */
  lemma NewSig(m: Mem, r: Mem, k: nat, ids: map<nat, Id>, data: BlockData, sig: Sig)
    requires MemOk(m, k) && MemOk(r, k) && IdsStored(m.g, ids) && Acceptable(m, ids, data)
    requires Added(m, r, data, ParentsOf(m, ids, data)) && sig == if m.total == 0 then GenesisSig(data) else SigOf(data)
    ensures m.total in r.g && SigAt(r.g, m.total) == sig
  {
    if m.total > 0 {
      SigWithParents(m.g, r.g, ids, m.total, data);
    } else {
      SigWithout(r.g, m.total, data);
    }
  }

  lemma SigWithParents(g: Graph, h: Graph, ids: map<nat, Id>, b: Id, data: BlockData)
    requires Within(g, h) && IdsStored(g, ids) && (forall i :: 0 <= i < |data.parents| ==> data.parents[i] in ids)
    requires b in h && h[b].hash == data.hash && h[b].priority == data.priority
    requires h[b].parents == Elems(ParentIds(ids, data.parents))
    ensures SigAt(h, b) == SigOf(data)
  {
    HashesOfParents(g, h, ids, data.parents, ParentIds(ids, data.parents));
  }

  lemma SigWithout(h: Graph, b: Id, data: BlockData)
    requires b in h && h[b].hash == data.hash && h[b].priority == data.priority && h[b].parents == {}
    ensures SigAt(h, b) == GenesisSig(data)
  {}

  lemma HashesOfParents(g: Graph, h: Graph, ids: map<nat, Id>, hashes: seq<nat>, list: seq<Id>)
    requires Within(g, h) && IdsStored(g, ids) && (forall i :: 0 <= i < |hashes| ==> hashes[i] in ids)
    requires list == ParentIds(ids, hashes)
    ensures Elems(list) <= h.Keys && (set p | p in Elems(list) :: h[p].hash) == (set x | x in hashes)
  {
    forall i | 0 <= i < |hashes| ensures list[i] in h && h[list[i]].hash == hashes[i] && list[i] in Elems(list) {}
    forall p | p in Elems(list) ensures p in h && h[p].hash in hashes {
      var i :| 0 <= i < |list| && list[i] == p;
    }
    forall x | x in hashes ensures exists p :: p in Elems(list) && h[p].hash == x {
      var i :| 0 <= i < |hashes| && hashes[i] == x;
      assert list[i] in Elems(list);
    }
  }

  lemma TimeChangesNothing(p: Point, k: nat, limit: nat, now: int)
    requires Running(p, k, limit) && Sound(p.mem.(lastTime := now), k, p.db) && Lean(p.mem.(lastTime := now), k, limit)
    ensures Running(p.(mem := p.mem.(lastTime := now)), k, limit)
  {
    assert Broken(OfRetold, p.mem) && Broken(OfCounted, p.mem) && Broken(OfSound, p.mem);
    MemOkAtAnyTime(p.mem, k, now);
  }

  /** Taking a block up keeps the invariant of runs. */
  lemma AdvancedKeeps(p: Point, q: Point, k: nat, limit: nat, data: BlockData, sig: Sig, grown: Mem, report: Report)
    requires Sound(p.mem, k, p.db) && Retold(p.mem, k, p.reports) && Counted(p.mem, p.accepted, p.lost)
    requires Advanced(p, q, k, limit, data, sig, grown, report)
    requires sig == if p.mem.total == 0 then GenesisSig(data) else SigOf(data)
    requires Sound(q.mem, k, q.db) && Lean(q.mem, k, limit) && q.mem.total > 0
    ensures Running(q, k, limit)
  {
    RetoldMore(p.mem, grown, q.mem, k, limit, p.db.ids, data, p.reports, report);
    CountedMore(p.mem, grown, q.mem, k, limit, p.db, data, report, p.accepted, p.lost, sig);
  }

  /** The first block. */
  method Start(dag: MeerDag, genesis: BlockData) returns (reports: seq<Report>, ghost p: Point)
    requires dag.Stored() && dag.mem.total == 0
    modifies dag
    ensures dag.Stored() && dag.mem.total == 1 && p.mem == dag.mem && p.db == dag.db && p.reports == reports
    ensures Running(p, dag.k, dag.tipsDisLimit) && p.accepted == {GenesisSig(genesis)}
  {
    ghost var empty := Point(dag.mem, dag.db, [], {}, {});
    EmptyIsFine(dag.mem, dag.k, dag.db, genesis);
    var ok, news, olds, tipChanged := dag.AddBlock(genesis);
    ghost var grown := dag.mem;
    dag.Commit();
    reports := [(olds, news)];
    p := Point(dag.mem, dag.db, reports, {GenesisSig(genesis)}, Lost(grown, dag.mem));
    assert [] + [reports[0]] == reports && {} + p.lost == p.lost && {} + p.accepted == p.accepted;
    AdvancedKeeps(empty, p, dag.k, dag.tipsDisLimit, genesis, GenesisSig(genesis), grown, reports[0]);
  }

  lemma EmptyIsFine(m: Mem, k: nat, db: Db, genesis: BlockData)
    requires Sound(m, k, db) && m.total == 0
    ensures Retold(m, k, []) && Counted(m, {}, {}) && Acceptable(m, db.ids, genesis) && Proper(m, db.ids, genesis)
  {
    assert Broken(OfSound, m);
    NoIds(db.ids);
  }

  lemma NoIds(ids: map<nat, Id>)
    requires IdsStored(map[], ids)
    ensures ids == map[]
  {}

  /** One step of a run does what its event says. */
  method Step(dag: MeerDag, event: Event, reports0: seq<Report>, ghost p: Point)
    returns (reports: seq<Report>, ghost q: Point)
    requires dag.Stored() && dag.mem.total < MAX_ID && p.mem == dag.mem && p.db == dag.db && p.reports == reports0
    requires Running(p, dag.k, dag.tipsDisLimit)
    modifies dag
    ensures dag.Stored() && dag.mem.total <= old(dag.mem.total) + 1
    ensures q.mem == dag.mem && q.db == dag.db && q.reports == reports
    ensures Running(q, dag.k, dag.tipsDisLimit) && Follows(p, q, dag.k, dag.tipsDisLimit, event)
    ensures event.Attempt? ==> dag.mem == old(dag.mem) && dag.db == old(dag.db)
    ensures event.Restart? ==> dag.mem == old(dag.mem).(lastTime := event.now) && dag.db == old(dag.db)
  {
    reports, q := reports0, p;
    match event
    case Arrival(data, valid) =>
      var accepted, report, grown := MaybeAcceptBlock(dag, data, valid, false);
      if accepted {
        reports := reports + [report];
        q := Point(dag.mem, dag.db, reports, p.accepted + {SigOf(data)}, p.lost + Lost(grown, dag.mem));
        assert Advanced(p, q, dag.k, dag.tipsDisLimit, data, SigOf(data), grown, report);
        AdvancedKeeps(p, q, dag.k, dag.tipsDisLimit, data, SigOf(data), grown, report);
      }
    case Attempt(data) =>
      var _, _, _ := AddAndTakeBack(dag, data);
    case Restart(now) =>
      var ok, _ := dag.Reload(dag.mem.total, now);
      q := p.(mem := dag.mem);
      TimeChangesNothing(p, dag.k, dag.tipsDisLimit, now);
  }

  /** An addition that is taken back leaves nothing behind; `between` is the state in the meantime. */
  method AddAndTakeBack(dag: MeerDag, data: BlockData) returns (added: bool, report: Report, ghost between: Mem)
    requires dag.Stored() && 0 < dag.mem.total < MAX_ID
    modifies dag
    ensures dag.Stored() && dag.mem == old(dag.mem) && dag.db == old(dag.db)
    ensures added == old(Takes(dag.mem, dag.db.ids, data, true))
    ensures added ==> Grown(dag.mem, between, dag.k, dag.db.ids, data, report.0, report.1)
  {
    report, between := ([], []), dag.mem;
    added := CheckMainParent(dag.mem, dag.k, dag.db, data.parents);
    if added {
      CheckedIsProper(dag.mem, dag.k, dag.db, data);
      var news, olds, tipChanged;
      added, news, olds, tipChanged := dag.AddBlock(data);
      if added {
        report, between := (olds, news), dag.mem;
        var ok := dag.Rollback();
      }
    }
  }

  ghost predicate StepFits(trace: seq<Point>, events: seq<Event>, k: nat, limit: nat, i: nat)
    requires i < |events| && i + 1 < |trace|
  {
    Follows(trace[i], trace[i + 1], k, limit, events[i])
  }

  /** A list of points, each of which follows from the one before it by the event in between. */
  ghost predicate IsTrace(trace: seq<Point>, events: seq<Event>, k: nat, limit: nat)
  {
    && |trace| == |events| + 1
    && forall i {:trigger StepFits(trace, events, k, limit, i)} ::
         0 <= i < |events| ==> StepFits(trace, events, k, limit, i)
  }

  lemma LongerTrace(trace: seq<Point>, events: seq<Event>, k: nat, limit: nat, q: Point, event: Event)
    requires IsTrace(trace, events, k, limit) && Follows(trace[|events|], q, k, limit, event)
    ensures IsTrace(trace + [q], events + [event], k, limit)
  {
    var t, e := trace + [q], events + [event];
    forall i | 0 <= i < |e| ensures StepFits(t, e, k, limit, i) {
      if i < |events| {
        assert StepFits(trace, events, k, limit, i);
      }
    }
  }

  /** Every run: whatever arrives, in whatever order, with additions taken back and restarts in
      between, every event does what it should, memory stays consistent, the buckets hold it, the
      reports rebuild the order, and the blocks are those taken up but for those pruned. */
  method Run(anticoneSize: nat, limit: nat, now: int, genesis: BlockData, events: seq<Event>)
    returns (dag: MeerDag, reports: seq<Report>, ghost trace: seq<Point>)
    requires |events| + 1 < MAX_ID
    ensures dag.Stored() && dag.k == anticoneSize && dag.tipsDisLimit == limit
    ensures IsTrace(trace, events, anticoneSize, limit) && trace[0].accepted == {GenesisSig(genesis)}
    ensures forall i :: 0 <= i < |trace| ==> Running(trace[i], anticoneSize, limit)
    ensures trace[|events|].mem == dag.mem && trace[|events|].db == dag.db && trace[|events|].reports == reports
  {
    dag := new MeerDag(anticoneSize, limit, now);
    ghost var p;
    reports, p := Start(dag, genesis);
    trace := [p];
    for i := 0 to |events|
      invariant dag.Stored() && p.mem == dag.mem && p.db == dag.db
      invariant p.reports == reports && Running(p, dag.k, dag.tipsDisLimit)
      invariant dag.k == anticoneSize && dag.tipsDisLimit == limit && fresh(dag) && dag.mem.total <= i + 1
      invariant IsTrace(trace, events[..i], anticoneSize, limit) && trace[i] == p
      invariant trace[0].accepted == {GenesisSig(genesis)}
      invariant forall j :: 0 <= j < |trace| ==> Running(trace[j], anticoneSize, limit)
    {
      ghost var before := p;
      reports, p := Step(dag, events[i], reports, p);
      assert events[..i + 1] == events[..i] + [events[i]];
      LongerTrace(trace, events[..i], anticoneSize, limit, p, events[i]);
      trace := trace + [p];
    }
    assert events[..|events|] == events;
  }

  // ---------------------------------------------------------------- what a run gives

  /** What the invariant of runs says, with nothing closed. */
  lemma RunningIs(p: Point, k: nat, limit: nat)
    ensures Running(p, k, limit) <==>
      && 0 < p.mem.total && MemOk(p.mem, k) && DbOk(p.mem, k, p.db) && NothingToDiscard(p.mem, k, limit)
      && Replay([], p.reports) == Line(p.mem, k) && Blocks(p.mem.g) + p.lost == p.accepted
  {
    SoundIs(p.mem, k, p.db);
    LeanIs(p.mem, k, limit);
    assert Broken(OfRetold, p.mem) && Broken(OfCounted, p.mem);
  }

  /** A step of a run drops no block that is near the main tip in id or in height, and afterwards every unordered
      block without children is near. */
  lemma RunSparesNear(p: Point, q: Point, k: nat, limit: nat, data: BlockData, sig: Sig, grown: Mem, report: Report,
                      x: Id)
    requires Running(q, k, limit) && Advanced(p, q, k, limit, data, sig, grown, report)
    ensures Spared(grown, q.mem, limit, x) && NearIfLoose(q.mem, limit, x)
  {
    GrownIs(p.mem, grown, k, p.db.ids, data, report.0, report.1);
    TrimmedIs(grown, q.mem, k, limit);
    NearIsSpared(grown, q.mem, k, limit, x);
    LooseIsNear(q.mem, k, limit);
  }

  /** At every point of a run the index read from 0 to the number of the main tip is the recursive order,
      which is also what the reports add up to; numbers agree and parents come first. */
  lemma RunReadsOrder(p: Point, k: nat, limit: nat, i: nat)
    requires Running(p, k, limit)
    ensures MemOk(p.mem, k) && p.mem.mainTip in p.mem.g && Replay([], p.reports) == Order(p.mem.g, k, p.mem.mainTip)
    ensures i <= p.mem.orders[p.mem.mainTip] ==>
      && i in p.db.order && i < |Order(p.mem.g, k, p.mem.mainTip)|
      && p.db.order[i] == Order(p.mem.g, k, p.mem.mainTip)[i]
      && p.db.order[i] in p.mem.g && p.mem.orders[p.db.order[i]] == i
      && forall x :: x in p.mem.g[p.db.order[i]].parents ==> p.mem.orders[x] < i
  {
    RunningIs(p, k, limit);
    MainTipFacts(p.mem, k);
    if i <= p.mem.orders[p.mem.mainTip] {
      IndexReadsOrder(p.mem, k, p.db, i);
    }
  }

  /** ... and every block of the main tip's past is read exactly once. */
  lemma RunReadsAll(p: Point, k: nat, limit: nat, b: Id)
    requires Running(p, k, limit)
    ensures MemOk(p.mem, k) && p.mem.mainTip in p.mem.g
    ensures b in Cone(p.mem.g, p.mem.mainTip) ==>
      && b in p.mem.g && p.mem.orders[b] in p.db.order && p.db.order[p.mem.orders[b]] == b
      && forall i :: 0 <= i <= p.mem.orders[p.mem.mainTip] && i in p.db.order && p.db.order[i] == b
           ==> i == p.mem.orders[b]
  {
    RunningIs(p, k, limit);
    MainTipFacts(p.mem, k);
    if b in Cone(p.mem.g, p.mem.mainTip) {
      EveryBlockIsRead(p.mem, k, p.db, b);
    }
  }

  /** What pruning loses are the hopeless blocks. */
  lemma LostAreHopeless(grown: Mem, r: Mem, k: nat, limit: nat)
    requires Trimmed(grown, r, k, limit)
    ensures MemOk(grown, k) && Lost(grown, r) == set x | x in Gone(grown, k, limit) && x in grown.g :: SigAt(grown.g, x)
  {
    TrimmedIs(grown, r, k, limit);
    LostBlocks(grown.g, r.g, Gone(grown, k, limit));
  }

  lemma LostBlocks(g: Graph, h: Graph, gone: set<Id>)
    requires DistinctHashes(g) && Within(h, g) && h.Keys == g.Keys - gone
    ensures Blocks(g) - Blocks(h) == set x | x in gone && x in g :: SigAt(g, x)
  {
    forall x | x in g ensures SigAt(g, x) in Blocks(h) <==> x !in gone {
      if x !in gone {
        SameSigs(h, g, x);
      }
      if SigAt(g, x) in Blocks(h) {
        var y :| y in h && SigAt(h, y) == SigAt(g, x);
        assert SameHash(g, x, y);
      }
    }
  }

  /** Two runs that took up the same blocks and pruned none end with the same main tip and the same
      order, told by hashes, in whatever order the blocks arrived and whatever else happened. */
  lemma RunsAgree(p: Point, q: Point, k: nat, limit: nat, limit': nat)
    requires Running(p, k, limit) && Running(q, k, limit') && p.accepted == q.accepted && p.lost == {} && q.lost == {}
    ensures MemOk(p.mem, k) && MemOk(q.mem, k) && p.mem.mainTip in p.mem.g && q.mem.mainTip in q.mem.g
    ensures p.mem.g[p.mem.mainTip].hash == q.mem.g[q.mem.mainTip].hash
    ensures Elems(Line(p.mem, k)) <= p.mem.g.Keys && Elems(Line(q.mem, k)) <= q.mem.g.Keys
    ensures Hashes(p.mem.g, Line(p.mem, k)) == Hashes(q.mem.g, Line(q.mem, k))
  {
    RunsHaveSameBlocks(p, q, k, limit, limit');
    NodesAgree(p.mem, q.mem, k);
  }

  lemma RunsHaveSameBlocks(p: Point, q: Point, k: nat, limit: nat, limit': nat)
    requires Running(p, k, limit) && Running(q, k, limit')
    requires p.accepted == q.accepted && p.lost == {} && q.lost == {}
    ensures MemOk(p.mem, k) && MemOk(q.mem, k) && p.mem.total > 0 && q.mem.total > 0
    ensures SameBlocks(p.mem.g, q.mem.g)
  {
    RunningIs(p, k, limit);
    RunningIs(q, k, limit');
    assert Blocks(p.mem.g) == Blocks(q.mem.g);
    EqualSetsAreSameBlocks(p.mem.g, q.mem.g);
  }

  /** ... and they agree on everything about each block: main parent, layer, height, blue number,
      diff-anticone, colours, order number, and whether it is ordered at all. */
  lemma RunsAgreeOnBlock(p: Point, q: Point, k: nat, limit: nat, limit': nat, x: Id, y: Id)
    requires Running(p, k, limit) && Running(q, k, limit')
    requires p.accepted == q.accepted && p.lost == {} && q.lost == {}
    requires x in p.mem.g && y in q.mem.g && p.mem.g[x].hash == q.mem.g[y].hash
    ensures MemOk(p.mem, k) && MemOk(q.mem, k)
    ensures p.mem.g[x].Diff() <= p.mem.g.Keys && q.mem.g[y].Diff() <= q.mem.g.Keys
    ensures BlockAgrees(p.mem.g, q.mem.g, x, y) && p.mem.orders[x] == q.mem.orders[y]
    ensures x in p.mem.diffAnticone <==> y in q.mem.diffAnticone
  {
    RunsHaveSameBlocks(p, q, k, limit, limit');
    DerivedAgrees(p.mem.g, q.mem.g, k, x, y);
    NumbersAgree(p.mem, q.mem, k, x, y);
  }
}
