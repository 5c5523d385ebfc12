/** The block DAG as a value: one immutable record per block, keyed by id.

    A block's hash, priority, parents, main parent, layer, height, blue number
    and the two numbered halves of its diff-anticone are fixed once the block
    has been added, so they form a `Node`.  Everything below is defined on maps
    of nodes; the two fields of a block that change later (children and order)
    live in the class of `MeerDag.dfy`. */
module Dag {

  type Id = nat

  /** The id that stands for "no block" (32 bits, all ones). */
  const MAX_ID: nat := 0xFFFF_FFFF

  /** Largest layer distance between the parents of one block. */
  const MAX_TIP_LAYER_GAP: nat := 10

  datatype Node = Node(
    hash: nat,
    priority: int,
    parents: set<Id>,
    mainParent: Id,
    layer: nat,
    height: nat,
    blueNum: nat,
    blue: map<Id, nat>,
    red: map<Id, nat>)
  {
    ghost function Diff(): set<Id> { blue.Keys + red.Keys }
  }

  /** Ids grow with arrival, parents are present, and only block 0 has none. */
  ghost predicate Closed(g: map<Id, Node>)
  {
    && (forall b :: b in g ==> b < MAX_ID)
    && (0 in g ==> g[0].parents == {} && g[0].mainParent == MAX_ID)
    && (forall b {:trigger g[b].mainParent} :: b in g && b != 0 ==> g[b].mainParent in g[b].parents)
    && (forall b, p {:trigger p in g[b].parents} :: b in g && p in g[b].parents ==> p in g && p < b)
  }

  type Graph = g: map<Id, Node> | Closed(g) witness map[]

  ghost predicate DistinctHashes(g: map<Id, Node>)
  {
    forall a, b {:trigger SameHash(g, a, b)} :: a in g && b in g && SameHash(g, a, b) ==> a == b
  }

  ghost predicate SameHash(g: map<Id, Node>, a: Id, b: Id)
    requires a in g && b in g
  {
    g[a].hash == g[b].hash
  }

  /** Every block of `g` is in `h` with the same record. */
  ghost predicate Within(g: map<Id, Node>, h: map<Id, Node>)
  {
    forall b :: b in g ==> b in h && h[b] == g[b]
  }

  lemma WithOneMore(g: map<Id, Node>, b: Id, n: Node)
    requires b !in g
    ensures g[b := n].Keys == g.Keys + {b} && Within(g, g[b := n])
  {}

  // ---------------------------------------------------------------- cones

  /** The closed past of `b`: `b` and everything reachable through parents. */
  ghost function Cone(g: Graph, b: Id): set<Id>
    requires b in g
    decreases b
  {
    {b} + set p, x | p in g[b].parents && x in Cone(g, p) :: x
  }

  /** The union of the cones of `ps`; the past of a block with parents `ps`. */
  ghost function PastOf(g: Graph, ps: set<Id>): set<Id>
    requires ps <= g.Keys
  {
    set p, x | p in ps && x in Cone(g, p) :: x
  }

  ghost function Past(g: Graph, b: Id): set<Id>
    requires b in g
  {
    PastOf(g, g[b].parents)
  }

  lemma {:induction false} ConeBounds(g: Graph, b: Id)
    requires b in g
    ensures b in Cone(g, b)
    ensures forall x :: x in Cone(g, b) ==> x in g && x <= b
    decreases b
  {
    forall p | p in g[b].parents {
      ConeBounds(g, p);
    }
  }

  lemma ConeIsSelfAndPast(g: Graph, b: Id)
    requires b in g
    ensures Cone(g, b) == {b} + Past(g, b)
    ensures b !in Past(g, b)
    ensures forall p :: p in g[b].parents ==> p in Past(g, b) && Cone(g, p) <= Past(g, b)
  {
    forall p | p in g[b].parents {
      ConeBounds(g, p);
    }
  }

  lemma ConeOfParent(g: Graph, b: Id, p: Id)
    requires b in g && p in g[b].parents
    ensures p in Cone(g, b) && forall z :: z in Cone(g, p) ==> z in Cone(g, b)
  {
    ConeBounds(g, p);
  }

  lemma {:induction false} ConeTransitive(g: Graph, b: Id, y: Id)
    requires b in g && y in Cone(g, b)
    ensures y in g && Cone(g, y) <= Cone(g, b)
    decreases b
  {
    ConeBounds(g, b);
    if y != b {
      var p :| p in g[b].parents && y in Cone(g, p);
      ConeTransitive(g, p, y);
    }
  }

  lemma ConeHasParents(g: Graph, b: Id, y: Id, p: Id)
    requires b in g && y in Cone(g, b)
    requires y in g && p in g[y].parents
    ensures p in Cone(g, b)
  {
    ConeTransitive(g, b, y);
    ConeIsSelfAndPast(g, y);
  }

  lemma {:induction false} GenesisInCone(g: Graph, b: Id)
    requires b in g
    ensures 0 in g && 0 in Cone(g, b)
    decreases b
  {
    if b != 0 {
      GenesisInCone(g, g[b].mainParent);
      ConeIsSelfAndPast(g, b);
    }
  }

  /** Whatever is in a cone but is not its apex has a child in that cone. */
  lemma {:induction false} ConeStep(g: Graph, b: Id, x: Id) returns (c: Id)
    requires b in g && x in Cone(g, b) && x != b
    ensures c in g && c in Cone(g, b) && x in g[c].parents
    decreases b
  {
    var p :| p in g[b].parents && x in Cone(g, p);
    if x == p {
      c := b;
      ConeBounds(g, b);
    } else {
      c := ConeStep(g, p, x);
      ConeIsSelfAndPast(g, b);
    }
  }

  lemma {:induction false} ConeFrame(g: Graph, h: Graph, b: Id)
    requires Within(g, h) && b in g
    ensures Cone(g, b) == Cone(h, b)
    decreases b
  {
    forall p | p in g[b].parents {
      ConeFrame(g, h, p);
    }
  }

  lemma PastOfFrame(g: Graph, h: Graph, ps: set<Id>)
    requires Within(g, h) && ps <= g.Keys
    ensures PastOf(g, ps) == PastOf(h, ps)
  {
    forall p | p in ps {
      ConeFrame(g, h, p);
    }
  }

  lemma PastOfBounds(g: Graph, ps: set<Id>)
    requires ps <= g.Keys
    ensures PastOf(g, ps) <= g.Keys && ps <= PastOf(g, ps)
  {
    forall p | p in ps {
      ConeBounds(g, p);
    }
  }

  lemma PastOfHasParents(g: Graph, ps: set<Id>, x: Id, q: Id)
    requires ps <= g.Keys && x in PastOf(g, ps) && x in g && q in g[x].parents
    ensures q in PastOf(g, ps)
  {
    var p :| p in ps && x in Cone(g, p);
    ConeHasParents(g, p, x, q);
  }

  /** A set that contains `b` and the parents of its members contains the cone. */
  lemma {:induction false} ConeLeast(g: Graph, b: Id, s: set<Id>)
    requires b in g && b in s && s <= g.Keys
    requires forall x, p :: x in s && p in g[x].parents ==> p in s
    ensures Cone(g, b) <= s
    decreases b
  {
    forall p | p in g[b].parents {
      ConeLeast(g, p, s);
    }
  }

  // ---------------------------------------------------------------- main-parent chains

  /** `b`, its main parent, that one's main parent, ... down to block 0. */
  ghost function Chain(g: Graph, b: Id): seq<Id>
    requires b in g
    decreases b
  {
    [b] + if b == 0 then [] else Chain(g, g[b].mainParent)
  }

  lemma {:induction false} ChainBounds(g: Graph, b: Id)
    requires b in g
    ensures forall i :: 0 <= i < |Chain(g, b)| ==> Chain(g, b)[i] in Cone(g, b)
    ensures Chain(g, b)[|Chain(g, b)| - 1] == 0
    decreases b
  {
    if b != 0 {
      ChainBounds(g, g[b].mainParent);
      ConeOfParent(g, b, g[b].mainParent);
    }
  }

  lemma ChainInCone(g: Graph, b: Id, x: Id)
    requires b in g && x in Chain(g, b)
    ensures x in Cone(g, b) && x in g && x <= b
  {
    ChainBounds(g, b);
    ConeBounds(g, b);
  }

  lemma GenesisInChain(g: Graph, b: Id)
    requires b in g
    ensures 0 in Chain(g, b)
  {
    ChainBounds(g, b);
  }

  lemma {:induction false} ChainFrame(g: Graph, h: Graph, b: Id)
    requires Within(g, h) && b in g
    ensures Chain(g, b) == Chain(h, b)
    decreases b
  {
    if b != 0 {
      ChainFrame(g, h, g[b].mainParent);
    }
  }

  /** A chain read from one of its members on is that member's chain. */
  lemma {:induction false} ChainSuffix(g: Graph, b: Id, i: nat)
    requires b in g && i < |Chain(g, b)|
    ensures Chain(g, b)[i] in g
    ensures Chain(g, b)[i..] == Chain(g, Chain(g, b)[i])
    decreases b
  {
    if i > 0 {
      ChainSuffix(g, g[b].mainParent, i - 1);
    }
  }

  /** One step along a chain. */
  lemma ChainAt(g: Graph, b: Id, i: nat)
    requires b in g && i < |Chain(g, b)|
    ensures var c := Chain(g, b)[i];
      && c in g && (c == 0 <==> i == |Chain(g, b)| - 1)
      && (c != 0 ==> i + 1 < |Chain(g, b)| && Chain(g, b)[i + 1] == g[c].mainParent)
  {
    ChainSuffix(g, b, i);
    var chain, c := Chain(g, b), Chain(g, b)[i];
    if c != 0 {
      assert Chain(g, c)[1] == g[c].mainParent;
      assert chain[i..][1] == chain[i + 1];
    }
  }

  lemma ChainLater(g: Graph, b: Id, i: nat, j: nat)
    requires b in g && i <= j < |Chain(g, b)|
    ensures Chain(g, b)[i] in g && Chain(g, b)[j] in Chain(g, Chain(g, b)[i])
  {
    ChainSuffix(g, b, i);
    assert Chain(g, b)[i..][j - i] == Chain(g, b)[j];
  }

  lemma {:induction false} ChainDescends(g: Graph, b: Id)
    requires b in g
    ensures forall i :: 0 <= i < |Chain(g, b)| ==> Chain(g, b)[i] <= b
    ensures forall i, j :: 0 <= i < j < |Chain(g, b)| ==> Chain(g, b)[j] < Chain(g, b)[i]
    decreases b
  {
    if b != 0 {
      ChainDescends(g, g[b].mainParent);
    }
  }
}
