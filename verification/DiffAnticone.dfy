/** The search for the diff-anticone of a new block.

    The code grows a shadow copy of the part of the DAG below the other
    parents, layer by layer, and cuts it with as much of the main parent's
    closed past as it has read so far.  Two breadth-first passes per round
    decide what to grow next; the first one depends on the visiting order.
    The outcome does not: it is proved to be exact. */
module DiffAnticone {
  import opened Dag
  import opened Blue
  import opened Spec

  /** Every shadow block points to shadow blocks. */
  ghost predicate ShadowClosed(shadow: map<Id, set<Id>>)
  {
    forall x, y {:trigger y in shadow[x]} :: x in shadow && y in shadow[x] ==> y in shadow
  }

  /** `s` is closed under the parents that the shadow graph knows. */
  ghost predicate ClosedIn(shadow: map<Id, set<Id>>, s: set<Id>)
  {
    forall x, y {:trigger y in shadow[x]} :: x in s && x in shadow && y in shadow[x] ==> y in s
  }

  ghost predicate AllIn(queue: seq<Id>, s: set<Id>)
  {
    forall i :: 0 <= i < |queue| ==> queue[i] in s
  }

  lemma AllInPop(queue: seq<Id>, s: set<Id>)
    requires queue != [] && AllIn(queue, s)
    ensures queue[0] in s && AllIn(queue[1..], s)
  {}

  lemma AllInPush(queue: seq<Id>, more: seq<Id>, t: set<Id>, s: set<Id>)
    requires AllIn(queue, s) && AllIn(more, t) && t <= s
    ensures AllIn(queue + more, s)
  {}

  /** The blocks still to be visited and those that were visited. */
  ghost predicate Covers(s: set<Id>, seen: set<Id>, queue: seq<Id>)
  {
    forall y :: y in s && y != 0 ==> y in seen || y in queue
  }

  lemma CoversPop(s: set<Id>, seen: set<Id>, queue: seq<Id>)
    requires queue != [] && Covers(s, seen, queue)
    ensures Covers(s, seen + {queue[0]}, queue[1..])
  {
    HeadAndTail(queue);
  }

  lemma CoversMore(s: set<Id>, t: set<Id>, seen: set<Id>, queue: seq<Id>, more: seq<Id>)
    requires Covers(s, seen, queue) && forall y :: y in t ==> y in more
    ensures Covers(s + t, seen, queue + more)
  {}

  /** Lists a set in an arbitrary order. */
  method List(s: set<Id>) returns (l: seq<Id>)
    ensures forall x :: x in l <==> x in s
    ensures AllIn(l, s)
  {
    l := [];
    var rest := s;
    while rest != {}
      invariant rest <= s
      invariant forall x :: x in l <==> x in s && x !in rest
      invariant AllIn(l, s)
    {
      var x :| x in rest;
      rest := rest - {x};
      l := l + [x];
    }
  }

  /** First pass: whoever is already known to lie in the main parent's closed
      past hands this on to its shadow parents, once, in visiting order. */
  method SpreadMain(shadow: map<Id, set<Id>>, start: seq<Id>, mainsub: set<Id>, ghost low: set<Id>)
    returns (all: set<Id>)
    requires ShadowClosed(shadow) && AllIn(start, shadow.Keys)
    requires mainsub <= low && ClosedIn(shadow, low)
    ensures mainsub <= all <= low
  {
    all := mainsub;
    var queue, seen := start, {};
    while queue != []
      invariant AllIn(queue, shadow.Keys) && seen <= shadow.Keys
      invariant mainsub <= all <= low
      decreases |shadow.Keys - seen|, |queue|
    {
      var cur := queue[0];
      AllInPop(queue, shadow.Keys);
      queue := queue[1..];
      if cur in seen {
        continue;
      }
      seen := seen + {cur};
      if cur in all {
        all := all + shadow[cur];
      }
      var more := List(shadow[cur]);
      AllInPush(queue, more, shadow[cur], shadow.Keys);
      queue := queue + more;
    }
  }

  /** What the second pass leaves behind. */
  ghost predicate Walked(shadow: map<Id, set<Id>>, roots: set<Id>, all: set<Id>, reach: set<Id>,
                         tips: set<Id>, genealogy: set<Id>)
  {
    && reach <= shadow.Keys && 0 !in reach && tips <= shadow.Keys
    && (forall y :: y in roots && y != 0 ==> y in reach)
    && (forall x, y {:trigger y in shadow[x]} :: x in reach && y in shadow[x] && y != 0 ==> y in reach)
    && genealogy == roots + (reach - all)
    && (forall x :: x in tips && x != 0 ==> x in reach && x !in all && shadow[x] == {})
    && (forall x :: x in reach && x !in all && shadow[x] == {} ==> x in tips)
  }

  /** The second pass in progress: `seen` was visited, `need` still has to be covered. */
  ghost predicate Sweep(shadow: map<Id, set<Id>>, roots: set<Id>, all: set<Id>, seen: set<Id>, need: set<Id>,
                        tips: set<Id>, genealogy: set<Id>)
  {
    && seen <= shadow.Keys && 0 !in seen && tips <= shadow.Keys
    && roots <= need && (forall x :: x in seen ==> shadow[x] <= need)
    && genealogy == roots + (seen - all)
    && (forall x :: x in tips && x != 0 ==> x in seen && x !in all && shadow[x] == {})
    && (forall x :: x in seen && x !in all && shadow[x] == {} ==> x in tips)
  }

  lemma SweepVisit(shadow: map<Id, set<Id>>, roots: set<Id>, all: set<Id>, seen: set<Id>, need: set<Id>,
                   tips: set<Id>, genealogy: set<Id>, cur: Id)
    requires Sweep(shadow, roots, all, seen, need, tips, genealogy) && cur in shadow && cur != 0 && cur !in seen
    ensures Sweep(shadow, roots, all, seen + {cur}, need + shadow[cur],
              if cur !in all && shadow[cur] == {} then tips + {cur} else tips,
              if cur !in all then genealogy + {cur} else genealogy)
  {}

  /** Second pass: collects the shadow blocks outside `all` and, among them, those not grown yet. */
  method CollectTips(shadow: map<Id, set<Id>>, start: seq<Id>, roots: set<Id>, all: set<Id>)
    returns (tips: set<Id>, genealogy: set<Id>, ghost reach: set<Id>)
    requires ShadowClosed(shadow) && roots <= shadow.Keys
    requires AllIn(start, shadow.Keys) && forall x :: x in start <==> x in roots
    ensures Walked(shadow, roots, all, reach, tips, genealogy)
  {
    tips, genealogy := {}, roots;
    var queue, seen := start, {};
    ghost var need := roots;
    while queue != []
      invariant AllIn(queue, shadow.Keys) && Covers(need, seen, queue)
      invariant Sweep(shadow, roots, all, seen, need, tips, genealogy)
      decreases |shadow.Keys - seen|, |queue|
    {
      var cur := queue[0];
      AllInPop(queue, shadow.Keys);
      CoversPop(need, seen, queue);
      queue := queue[1..];
      if cur == 0 {
        tips := tips + {cur};
        continue;
      }
      if cur in seen {
        continue;
      }
      SweepVisit(shadow, roots, all, seen, need, tips, genealogy, cur);
      seen := seen + {cur};
      if cur !in all {
        if shadow[cur] == {} {
          tips := tips + {cur};
        }
        genealogy := genealogy + {cur};
      }
      var more := List(shadow[cur]);
      AllInPush(queue, more, shadow[cur], shadow.Keys);
      CoversMore(need, shadow[cur], seen, queue, more);
      need := need + shadow[cur];
      queue := queue + more;
    }
    reach := seen;
  }

  method GetTreeTips(shadow: map<Id, set<Id>>, roots: set<Id>, mainsub: set<Id>, ghost low: set<Id>)
    returns (tips: set<Id>, genealogy: set<Id>, ghost reach: set<Id>, ghost all: set<Id>)
    requires ShadowClosed(shadow) && roots <= shadow.Keys
    requires mainsub <= low && ClosedIn(shadow, low)
    ensures mainsub <= all <= low
    ensures Walked(shadow, roots, all, reach, tips, genealogy)
  {
    var start := List(roots);
    assert AllIn(start, shadow.Keys);
    var spread := SpreadMain(shadow, start, mainsub, low);
    all := spread;
    tips, genealogy, reach := CollectTips(shadow, start, roots, spread);
  }

  // ---------------------------------------------------------------- rounds

  ghost predicate ParentClosed(g: Graph, s: set<Id>)
  {
    s <= g.Keys && forall x, p {:trigger p in g[x].parents} :: x in s && p in g[x].parents ==> p in s
  }

  /** A shadow block is either bare or has its real parents; it lies inside `past`. */
  ghost predicate Faithful(g: Graph, shadow: map<Id, set<Id>>, past: set<Id>)
  {
    && shadow.Keys <= past && past <= g.Keys
    && (forall x :: x in shadow ==> shadow[x] == {} || shadow[x] == g[x].parents)
  }

  /** Grown blocks of the main parent's closed past have been read as such. */
  ghost predicate CutOff(shadow: map<Id, set<Id>>, mainsub: set<Id>, low: set<Id>)
  {
    forall x :: x in shadow && shadow[x] != {} && x in low ==> x in mainsub
  }

  /** What has not been read yet of the main parent's closed past is below the reading position. */
  ghost predicate ReadTo(g: Graph, mainsub: set<Id>, low: set<Id>, cur: Id)
  {
    && mainsub <= low
    && if cur == MAX_ID then low <= mainsub
       else cur in g && Cone(g, cur) <= low && forall x :: x in low && x !in mainsub ==> x in Cone(g, cur)
  }

  ghost function Bare(g: Graph, shadow: map<Id, set<Id>>): set<Id>
  {
    set x | x in g && !(x in shadow && shadow[x] != {})
  }

  lemma ClosedInLow(g: Graph, shadow: map<Id, set<Id>>, past: set<Id>, low: set<Id>)
    requires Faithful(g, shadow, past) && ParentClosed(g, low)
    ensures ClosedIn(shadow, low)
  {
    forall x, y | x in low && x in shadow && y in shadow[x] ensures y in low {
      assert y in g[x].parents;
    }
  }

  /** Gives every tip its real parents, as bare shadow blocks where they are new. */
  method Grow(g: Graph, shadow0: map<Id, set<Id>>, tips: set<Id>, ghost past: set<Id>)
    returns (shadow: map<Id, set<Id>>, minLayer: nat)
    requires Faithful(g, shadow0, past) && ShadowClosed(shadow0) && ParentClosed(g, past)
    requires tips <= shadow0.Keys
    ensures Faithful(g, shadow, past) && ShadowClosed(shadow) && shadow0.Keys <= shadow.Keys
    ensures GrownFrom(g, shadow0, shadow, tips)
    ensures forall x :: x in tips ==> minLayer <= g[x].layer
  {
    shadow, minLayer := shadow0, 0xFFFF_FFFF;
    var rest := tips;
    while rest != {}
      invariant rest <= tips
      invariant Faithful(g, shadow, past) && ShadowClosed(shadow) && shadow0.Keys <= shadow.Keys
      invariant forall x :: x in tips && x !in rest ==> shadow[x] == g[x].parents && minLayer <= g[x].layer
      invariant forall x :: x in shadow && shadow[x] != {} ==> x in tips || (x in shadow0 && shadow[x] == shadow0[x])
      invariant forall x :: x in shadow0 && shadow0[x] != {} ==> shadow[x] != {}
    {
      var t :| t in rest;
      rest := rest - {t};
      shadow := Attach(g, shadow, t, past);
      if g[t].layer < minLayer {
        minLayer := g[t].layer;
      }
    }
  }

  function Attach(g: Graph, shadow: map<Id, set<Id>>, t: Id, ghost past: set<Id>): (r: map<Id, set<Id>>)
    requires Faithful(g, shadow, past) && ShadowClosed(shadow) && ParentClosed(g, past) && t in shadow
    ensures Faithful(g, r, past) && ShadowClosed(r) && shadow.Keys <= r.Keys
    ensures r[t] == g[t].parents
    ensures forall x :: x in shadow && x != t ==> r[x] == shadow[x]
    ensures forall x :: x in r && x !in shadow ==> r[x] == {}
  {
    (map p | p in g[t].parents && p !in shadow :: {}) + shadow[t := g[t].parents]
  }

  /** Reads the main parent's closed past down to the given layer. */
  method ReadMain(g: Graph, k: nat, mainsub0: set<Id>, cur0: Id, minLayer: nat, ghost low: set<Id>)
    returns (mainsub: set<Id>, cur: Id)
    requires Wf(g, k) && ReadTo(g, mainsub0, low, cur0)
    ensures ReadTo(g, mainsub, low, cur) && mainsub0 <= mainsub
    ensures forall x :: x in low && x in g && minLayer <= g[x].layer ==> x in mainsub
    ensures minLayer == 0 ==> cur == MAX_ID
    ensures cur == cur0 || cur == MAX_ID || cur < cur0
    ensures cur0 == MAX_ID ==> cur == MAX_ID
  {
    mainsub, cur := mainsub0, cur0;
    while cur != MAX_ID && !(g[cur].layer < minLayer)
      invariant ReadTo(g, mainsub, low, cur) && mainsub0 <= mainsub
      invariant cur == cur0 || cur == MAX_ID || cur < cur0
      invariant cur0 == MAX_ID ==> cur == MAX_ID
      decreases if cur == MAX_ID then 0 else cur + 1
    {
      ReadStep(g, k, mainsub, low, cur);
      mainsub := mainsub + {cur} + g[cur].blue.Keys + g[cur].red.Keys;
      cur := g[cur].mainParent;
    }
    forall x | x in low && x in g && minLayer <= g[x].layer ensures x in mainsub {
      if x !in mainsub {
        assert x in Cone(g, cur);
        if x != cur {
          PastIsLower(g, k, cur, x);
        }
      }
    }
  }

  lemma ReadStep(g: Graph, k: nat, mainsub: set<Id>, low: set<Id>, cur: Id)
    requires Wf(g, k) && ReadTo(g, mainsub, low, cur) && cur != MAX_ID
    ensures ReadTo(g, mainsub + {cur} + g[cur].blue.Keys + g[cur].red.Keys, low, g[cur].mainParent)
  {
    DiffFacts(g, k, cur);
    ConeBounds(g, cur);
    if cur != 0 {
      ConeSplit(g, k, cur);
    }
  }

  // ---------------------------------------------------------------- exactness

  /** Following grown shadow blocks reaches whatever lies outside the closed past of the main parent. */
  lemma {:induction false} ReachesOutside(g: Graph, shadow: map<Id, set<Id>>, reach: set<Id>, low: set<Id>, y: Id,
                                          x: Id)
    requires ParentClosed(g, low) && 0 in low && reach <= shadow.Keys && shadow.Keys <= g.Keys
    requires forall a, b {:trigger b in shadow[a]} :: a in reach && b in shadow[a] && b != 0 ==> b in reach
    requires forall a :: a in reach && a !in low ==> shadow[a] == g[a].parents
    requires y in reach && x in Cone(g, y) && x !in low
    ensures x in reach
    decreases y
  {
    if x != y {
      var p :| p in g[y].parents && x in Cone(g, p);
      if y in low || p in low {
        ConeLeast(g, if y in low then y else p, low);
        assert false;
      }
      ReachesOutside(g, shadow, reach, low, p, x);
    }
  }

  /** Once nothing but block 0 is left to grow, the collected set is exact. */
  lemma Exact(g: Graph, parents: set<Id>, mp: Id, shadow: map<Id, set<Id>>, mainsub: set<Id>, all: set<Id>,
              reach: set<Id>, tips: set<Id>, genealogy: set<Id>)
    requires parents <= g.Keys && mp in parents
    requires Faithful(g, shadow, PastOf(g, parents)) && CutOff(shadow, mainsub, Cone(g, mp))
    requires mainsub <= all <= Cone(g, mp)
    requires Walked(shadow, parents - {mp}, all, reach, tips, genealogy) && tips <= {0}
    ensures genealogy == DiffOf(g, parents, mp) + (parents - {mp})
  {
    var past, low, roots := PastOf(g, parents), Cone(g, mp), parents - {mp};
    ConeIsClosed(g, mp);
    GenesisInCone(g, mp);
    forall x | x in genealogy ensures x in past - low || x in roots {
      if x !in roots {
        assert x in reach && x !in all && x !in tips;
        assert shadow[x] != {};
      }
    }
    forall x | x in past && x !in low ensures x in genealogy {
      var p :| p in parents && x in Cone(g, p);
      if p in low {
        ConeLeast(g, p, low);
        assert false;
      }
      ConeBounds(g, p);
      forall a | a in reach && a !in low ensures shadow[a] == g[a].parents {
        assert a !in all && a !in tips;
      }
      ReachesOutside(g, shadow, reach, low, p, x);
    }
  }

  lemma ConeIsClosed(g: Graph, b: Id)
    requires b in g
    ensures ParentClosed(g, Cone(g, b))
  {
    ConeBounds(g, b);
    forall x, p | x in Cone(g, b) && p in g[x].parents ensures p in Cone(g, b) {
      ConeHasParents(g, b, x, p);
    }
  }

  lemma PastOfIsClosed(g: Graph, ps: set<Id>)
    requires ps <= g.Keys
    ensures ParentClosed(g, PastOf(g, ps)) && ps <= PastOf(g, ps)
  {
    PastOfBounds(g, ps);
    forall x, p | x in PastOf(g, ps) && p in g[x].parents ensures p in PastOf(g, ps) {
      PastOfHasParents(g, ps, x, p);
    }
  }

  /** What `Grow` promises, as one fact. */
  ghost predicate GrownFrom(g: Graph, before: map<Id, set<Id>>, shadow: map<Id, set<Id>>, tips: set<Id>)
    requires before.Keys <= g.Keys
  {
    && before.Keys <= shadow.Keys && tips <= before.Keys
    && (forall x :: x in tips ==> shadow[x] == g[x].parents)
    && (forall x :: x in shadow && shadow[x] != {} ==> x in tips || (x in before && shadow[x] == before[x]))
    && (forall x :: x in before && before[x] != {} ==> shadow[x] != {})
  }

  lemma OnlyGenesis(g: Graph, k: nat, tips: set<Id>, minLayer: nat)
    requires Wf(g, k) && tips <= g.Keys && forall x :: x in tips ==> minLayer <= g[x].layer
    ensures tips == {0} ==> minLayer == 0
  {
    if tips == {0} {
      assert 0 in tips;
      assert Derived(g, k, 0);
    }
  }

  lemma CutOffKept(g: Graph, before: map<Id, set<Id>>, shadow: map<Id, set<Id>>, tips: set<Id>,
                   mainsub0: set<Id>, mainsub: set<Id>, low: set<Id>, minLayer: nat)
    requires before.Keys <= g.Keys && GrownFrom(g, before, shadow, tips) && CutOff(before, mainsub0, low)
    requires mainsub0 <= mainsub
    requires forall x :: x in tips ==> minLayer <= g[x].layer
    requires forall x :: x in low && x in g && minLayer <= g[x].layer ==> x in mainsub
    ensures CutOff(shadow, mainsub, low)
  {}

  /** A round grows a block, unless only block 0 was left. */
  lemma RoundProgress(g: Graph, before: map<Id, set<Id>>, shadow: map<Id, set<Id>>, tips: set<Id>)
    requires before.Keys <= g.Keys && GrownFrom(g, before, shadow, tips) && tips != {}
    requires forall x :: x in tips && x != 0 ==> before[x] == {}
    ensures Bare(g, shadow) <= Bare(g, before)
    ensures tips != {0} ==> Bare(g, shadow) < Bare(g, before)
    ensures tips == {0} ==> Bare(g, shadow) == Bare(g, before)
  {
    if tips != {0} {
      var t :| t in tips && t != 0;
      assert g[t].mainParent in g[t].parents;
      assert t in Bare(g, before) && t !in Bare(g, shadow);
    }
  }

  /** Grows and cuts until nothing but block 0 is left to grow. */
  method Rounds(g: Graph, k: nat, roots: set<Id>, mp: Id, ghost past: set<Id>, ghost low: set<Id>)
    returns (result: set<Id>, ghost shadow: map<Id, set<Id>>, ghost mainsub: set<Id>, ghost all: set<Id>,
             ghost reach: set<Id>, ghost tips: set<Id>)
    requires Wf(g, k) && ParentClosed(g, past) && ParentClosed(g, low) && roots <= past
    requires 0 in low && mp in low && ReadTo(g, {0, mp}, low, mp)
    ensures Faithful(g, shadow, past) && CutOff(shadow, mainsub, low) && mainsub <= all <= low
    ensures Walked(shadow, roots, all, reach, tips, result) && tips <= {0}
  {
    var grown: map<Id, set<Id>> := map p | p in roots :: {};
    var read, cur := {0, mp}, mp;
    ClosedInLow(g, grown, past, low);
    var toGrow;
    toGrow, result, reach, all := GetTreeTips(grown, roots, read, low);
    while toGrow != {}
      invariant Faithful(g, grown, past) && ShadowClosed(grown) && CutOff(grown, read, low)
      invariant ReadTo(g, read, low, cur) && read <= all <= low
      invariant Walked(grown, roots, all, reach, toGrow, result)
      invariant roots <= grown.Keys
      invariant cur == MAX_ID ==> toGrow != {0}
      decreases Bare(g, grown), if cur == MAX_ID then 0 else 1
    {
      ghost var before, readBefore := grown, read;
      var minLayer;
      grown, minLayer := Grow(g, grown, toGrow, past);
      read, cur := ReadMain(g, k, read, cur, minLayer, low);
      CutOffKept(g, before, grown, toGrow, readBefore, read, low, minLayer);
      RoundProgress(g, before, grown, toGrow);
      OnlyGenesis(g, k, toGrow, minLayer);
      ClosedInLow(g, grown, past, low);
      toGrow, result, reach, all := GetTreeTips(grown, roots, read, low);
      if cur == MAX_ID && toGrow == {0} {
        break;
      }
    }
    shadow, mainsub, tips := grown, read, toGrow;
  }

  /** The diff-anticone of a block with these parents.  The search also returns
      the other parents themselves, wherever they lie. */
  method GetDiffAnticone(g: Graph, k: nat, parents: set<Id>, mp: Id) returns (result: set<Id>)
    requires Wf(g, k) && parents <= g.Keys && mp in parents
    ensures result == DiffOf(g, parents, mp) + (parents - {mp})
  {
    var roots := parents - {mp};
    if roots == {} {
      SingleParent(g, parents, mp);
      return {};
    }
    PastOfIsClosed(g, parents);
    ConeIsClosed(g, mp);
    ConeBounds(g, mp);
    GenesisInCone(g, mp);
    ghost var shadow, mainsub, all, reach, tips;
    result, shadow, mainsub, all, reach, tips := Rounds(g, k, roots, mp, PastOf(g, parents), Cone(g, mp));
    Exact(g, parents, mp, shadow, mainsub, all, reach, tips, result);
  }

  lemma SingleParent(g: Graph, parents: set<Id>, mp: Id)
    requires mp in g && parents - {mp} == {} && mp in parents
    ensures parents <= g.Keys && DiffOf(g, parents, mp) + (parents - {mp}) == {}
  {
    assert parents == {mp};
  }

  // ---------------------------------------------------------------- when it is the wanted set

  /** No other parent lies in the past of the main parent. */
  ghost predicate MainClear(g: Graph, parents: set<Id>, mp: Id)
    requires mp in g
  {
    forall p :: p in parents && p != mp ==> p !in Cone(g, mp)
  }

  /** The search yields the past without the main parent's closed past exactly
      for the parent lists in which no parent is in the main parent's past. */
  lemma SearchIsExactIff(g: Graph, parents: set<Id>, mp: Id)
    requires parents <= g.Keys && mp in parents
    ensures DiffOf(g, parents, mp) + (parents - {mp}) == DiffOf(g, parents, mp) <==> MainClear(g, parents, mp)
  {
    PastOfBounds(g, parents);
    if DiffOf(g, parents, mp) + (parents - {mp}) == DiffOf(g, parents, mp) {
      forall p | p in parents && p != mp ensures p !in Cone(g, mp) {
        assert p in DiffOf(g, parents, mp) + (parents - {mp});
      }
    }
  }
}
