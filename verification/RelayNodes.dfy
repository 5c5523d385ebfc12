/** Taking up blocks from a peer: what is accepted here is accepted there, and the blocks of a
    batch are accepted one after the other. */
module RelayNodes {
  import opened Dag
  import opened Blue
  import opened Spec
  import opened Checks
  import opened State
  import opened MeerDag
  import opened Convergence
  import opened BlockChain
  import opened Sync
  import opened Relay

  /** The ids of a list of hashes are known and lead back to the hashes. */
  lemma ListOfHashes(g: Graph, ids: map<nat, Id>, hashes: seq<nat>)
    requires IdsStored(g, ids) && forall i :: 0 <= i < |hashes| ==> hashes[i] in ids
    ensures var list := ParentIds(ids, hashes);
      && |list| == |hashes| && Known(g, list) && forall i :: 0 <= i < |list| ==> g[list[i]].hash == hashes[i]
  {}

  /** A block that meets the rules has a list that passes, and the other way round. */
  lemma TakesIsPasses(m: Mem, k: nat, db: Db, data: BlockData, valid: bool)
    requires Sound(m, k, db) && m.total > 0
    ensures Takes(m, db.ids, data, valid) <==>
      && valid && data.hash !in db.ids && data.parents != []
      && (forall i :: 0 <= i < |data.parents| ==> data.parents[i] in db.ids)
      && Closed(m.g) && Passes(m.g, ParentIds(db.ids, data.parents), data.priority)
  {
    SoundIs(m, k, db);
    TakesIs(m, db.ids, data, valid);
  }

  lemma TakesIs(m: Mem, ids: map<nat, Id>, data: BlockData, valid: bool)
    requires Closed(m.g) && IdsStored(m.g, ids) && m.total > 0
    ensures Takes(m, ids, data, valid) <==>
      && valid && data.hash !in ids && data.parents != []
      && (forall i :: 0 <= i < |data.parents| ==> data.parents[i] in ids)
      && Passes(m.g, ParentIds(ids, data.parents), data.priority)
  {
    if data.parents != [] && forall i :: 0 <= i < |data.parents| ==> data.parents[i] in ids {
      ListOfHashes(m.g, ids, data.parents);
      ListIsKnown(m.g, ParentIds(ids, data.parents));
      assert ParentIds(ids, data.parents)[0] == ids[data.parents[0]];
    }
  }

  /** The node has all blocks of the past of a list. */
  ghost predicate HasPast(g: Graph, list: seq<Id>, h: Graph)
    requires Elems(list) <= g.Keys
  {
    forall x :: x in PastOf(g, Elems(list)) && x in g ==> SigAt(g, x) in Blocks(h)
  }

  lemma HashesAreKnown(g: Graph, h: Graph, ids': map<nat, Id>, list: seq<Id>, hashes: seq<nat>)
    requires Known(g, list) && Elems(list) <= g.Keys && HasPast(g, list, h) && IdsStored(h, ids') && |hashes| == |list|
    requires forall i :: 0 <= i < |list| ==> g[list[i]].hash == hashes[i]
    ensures forall i :: 0 <= i < |hashes| ==> hashes[i] in ids'
  {
    PastOfBounds(g, Elems(list));
    ElemsHaveAll(list);
    forall i | 0 <= i < |hashes| ensures hashes[i] in ids' {
      assert SigAt(g, list[i]) in Blocks(h);
      var y :| y in h && SigAt(h, y) == SigAt(g, list[i]);
      assert h[y].hash in ids';
    }
  }

  /** A list that passes here passes at a node that has its past, with the ids it has there. */
  lemma PassesByHash(g: Graph, h: Graph, k: nat, list: seq<Id>, ids': map<nat, Id>, hashes: seq<nat>, priority: int)
    requires Wf(g, k) && Wf(h, k) && Passes(g, list, priority) && HasPast(g, list, h) && IdsStored(h, ids')
    requires |hashes| == |list| && forall i :: 0 <= i < |list| ==> g[list[i]].hash == hashes[i]
    ensures forall i :: 0 <= i < |hashes| ==> hashes[i] in ids'
    ensures Passes(h, ParentIds(ids', hashes), priority)
  {
    HashesAreKnown(g, h, ids', list, hashes);
    ListOfHashes(h, ids', hashes);
    PassesThere(g, h, k, list, ParentIds(ids', hashes), priority);
  }

  /** What one node takes up, every node that has the past of the block and not the block takes up. */
  lemma TakenEverywhere(m: Mem, n: Mem, k: nat, db: Db, db': Db, data: BlockData, valid: bool)
    requires Sound(m, k, db) && Sound(n, k, db') && m.total > 0 && n.total > 0 && Takes(m, db.ids, data, valid)
    requires forall i :: 0 <= i < |data.parents| ==> data.parents[i] in db.ids
    requires Closed(m.g) && Closed(n.g) && Elems(ParentIds(db.ids, data.parents)) <= m.g.Keys
    requires HasPast(m.g, ParentIds(db.ids, data.parents), n.g) && data.hash !in db'.ids
    ensures Takes(n, db'.ids, data, valid)
  {
    TakesIsPasses(m, k, db, data, valid);
    SoundIs(m, k, db);
    SoundIs(n, k, db');
    ListOfHashes(m.g, db.ids, data.parents);
    PassesByHash(m.g, n.g, k, ParentIds(db.ids, data.parents), db'.ids, data.parents, data.priority);
    TakesIsPasses(n, k, db', data, valid);
  }

  /** A block that has been taken up keeps a parent list that passes, with the main parent first,
      in every later graph that still has it. */
  lemma TakenStillPasses(m: Mem, grown: Mem, k: nat, db: Db, data: BlockData, valid: bool, report: Report, h: Graph)
    requires Sound(m, k, db) && m.total > 0 && Takes(m, db.ids, data, valid)
    requires Grown(m, grown, k, db.ids, data, report.0, report.1) && Closed(grown.g) && Within(grown.g, h)
    ensures forall i :: 0 <= i < |data.parents| ==> data.parents[i] in db.ids
    ensures Passes(h, ParentIds(db.ids, data.parents), data.priority)
    ensures m.total in h && h[m.total].parents == Elems(ParentIds(db.ids, data.parents))
  {
    TakesIsPasses(m, k, db, data, valid);
    GrownIs(m, grown, k, db.ids, data, report.0, report.1);
    assert Within(m.g, h);
    PassesFrame(m.g, h, ParentIds(db.ids, data.parents), data.priority);
  }

  // ---------------------------------------------------------------- batches

  /** What has to be there for a block of a batch: the point's closed past and the blocks before it. */
  ghost predicate HasSoFar(g: Graph, k: nat, tip: Id, point: Id, limit: nat, j: nat, h: Graph)
    requires Wf(g, k) && tip in g && point in Chain(g, tip) && point in g && j <= |Batch(g, k, tip, point, limit)|
  {
    && (forall x :: x in Cone(g, point) && x in g ==> SigAt(g, x) in Blocks(h))
    && (forall x :: x in Batch(g, k, tip, point, limit)[..j] && x in g ==> SigAt(g, x) in Blocks(h))
  }

  /** The past of a block of a batch lies below the point or earlier in the batch. */
  lemma PastOfBatch(g: Graph, k: nat, tip: Id, point: Id, limit: nat, j: nat, x: Id)
    requires Wf(g, k) && tip in g && point in Chain(g, tip) && point in g && j < |Batch(g, k, tip, point, limit)|
    requires var b := Batch(g, k, tip, point, limit)[j]; b in g && x in Past(g, b)
    ensures x in Cone(g, point) || x in Batch(g, k, tip, point, limit)[..j]
  {
    var line, low, batch := Order(g, k, tip), Order(g, k, point), Batch(g, k, tip, point, limit);
    OrderPrefix(g, k, tip, point);
    var i := |low| + j;
    CutIsPart(line[|low|..], limit, j);
    BeforeInLine(line, low, j);
    BeforeIsPast(g, k, tip, i, x);
    assert Elems(low) == Cone(g, point) by {
      OrderIsCone(g, k, point);
    }
    assert x in low ==> x in Elems(low);
  }

  /** Whatever a block of an order needs stands before it, not only its parents. */
  lemma BeforeIsPast(g: Graph, k: nat, tip: Id, i: nat, x: Id)
    requires Wf(g, k) && tip in g && i < |Order(g, k, tip)|
    requires Order(g, k, tip)[i] in g && x in Past(g, Order(g, k, tip)[i])
    ensures x in Order(g, k, tip)[..i]
  {
    var line := Order(g, k, tip);
    var s := Elems(line[..i]);
    assert forall y :: y in s ==> y in g by {
      OrderIsCone(g, k, tip);
      ConeBounds(g, tip);
      assert forall y :: y in line[..i] ==> y in Elems(line);
    }
    forall y, p | y in s && p in g[y].parents ensures p in s {
      var a :| 0 <= a < i && line[a] == y;
      OrderIsTopological(g, k, tip, a, p);
      assert forall z :: z in line[..a] ==> z in line[..i];
    }
    var p :| p in g[line[i]].parents && x in Cone(g, p);
    OrderIsTopological(g, k, tip, i, p);
    ConeLeast(g, p, s);
  }

  /** Every block of a batch is taken up by a node that has the closed past of the point and the blocks
      before it in the batch, and not the block itself. */
  lemma BatchIsTaken(g: Graph, k: nat, tip: Id, point: Id, limit: nat, j: nat, list: seq<Id>,
                     n: Mem, db': Db, data: BlockData)
    requires Wf(g, k) && tip in g && point in Chain(g, tip) && point in g && j < |Batch(g, k, tip, point, limit)|
    requires var b := Batch(g, k, tip, point, limit)[j];
      b in g && Elems(list) == g[b].parents && data.priority == g[b].priority
    requires Passes(g, list, data.priority) && |data.parents| == |list|
    requires forall i :: 0 <= i < |list| ==> g[list[i]].hash == data.parents[i]
    requires Sound(n, k, db') && n.total > 0 && Closed(n.g) && HasSoFar(g, k, tip, point, limit, j, n.g)
    requires data.hash !in db'.ids
    ensures Takes(n, db'.ids, data, true)
  {
    var b := Batch(g, k, tip, point, limit)[j];
    SoundIs(n, k, db');
    assert HasPast(g, list, n.g) by {
      forall x | x in PastOf(g, Elems(list)) && x in g ensures SigAt(g, x) in Blocks(n.g) {
        PastOfBatch(g, k, tip, point, limit, j, x);
      }
    }
    PassesByHash(g, n.g, k, list, db'.ids, data.parents, data.priority);
    TakesIsPasses(n, k, db', data, true);
  }
}
