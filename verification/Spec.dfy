/** What the fields of every block have to be, and the order of the whole DAG.

    A block's main parent, colours, blue number and diff-anticone order are all
    determined by its parents (`Derived`); the order of a block's closed past is
    a three-line recursion over main parents (`Order`). */
module Spec {
  import opened Dag
  import opened Blue
  import opened DiffOrder

  // ---------------------------------------------------------------- colours

  /** The K-chain below `c`: blocks are taken until more than `k` blue blocks
      have been counted over more than twice the layer gap, or block 0 is reached. */
  ghost function KSegment(g: Graph, k: nat, c: Id, count: nat, deep: nat): seq<Id>
    requires c in g
    decreases c
  {
    var total := count + 1 + |g[c].blue|;
    [c] + if (total > k && deep + 1 > 2 * MAX_TIP_LAYER_GAP) || c == 0 then []
          else KSegment(g, k, g[c].mainParent, total, deep + 1)
  }

  lemma KSegmentUnfold(g: Graph, k: nat, c: Id, count: nat, deep: nat, total: nat)
    requires c in g && total == count + 1 + |g[c].blue|
    ensures if (total > k && deep + 1 > 2 * MAX_TIP_LAYER_GAP) || c == 0 then KSegment(g, k, c, count, deep) == [c]
            else KSegment(g, k, c, count, deep) == [c] + KSegment(g, k, g[c].mainParent, total, deep + 1)
  {}

  /** The K-chain of a block with main parent `mp`, without the block itself,
      which counts for one. */
  ghost function KChain(g: Graph, k: nat, mp: Id): seq<Id>
    requires mp in g
  {
    KSegment(g, k, mp, 1, 1)
  }

  /** `x` is blue for a block with main parent `mp`: its main-parent chain meets the K-chain. */
  ghost predicate BlueFor(g: Graph, k: nat, mp: Id, x: Id)
    requires mp in g && x in g
  {
    exists c :: c in Chain(g, x) && c in KChain(g, k, mp)
  }

  ghost function BlueSet(g: Graph, k: nat, mp: Id, diff: set<Id>): set<Id>
    requires mp in g && diff <= g.Keys
  {
    set x | x in diff && BlueFor(g, k, mp, x)
  }

  // ---------------------------------------------------------------- well-formed graphs

  /** The blocks a block with these parents brings in besides its main parent's cone. */
  ghost function DiffOf(g: Graph, parents: set<Id>, mp: Id): set<Id>
    requires parents <= g.Keys && mp in g
  {
    PastOf(g, parents) - Cone(g, mp)
  }

  ghost predicate MainParentOk(g: Graph, n: Node)
    requires n.parents <= g.Keys
  {
    && IsBluest(g, n.parents, n.mainParent)
    && n.height == g[n.mainParent].height + 1
    && (forall p :: p in n.parents ==> g[p].layer < n.layer)
    && (exists p :: p in n.parents && n.layer == g[p].layer + 1)
  }

  ghost predicate DiffOk(g: Graph, n: Node)
    requires n.parents <= g.Keys && n.mainParent in n.parents
  {
    n.Diff() == DiffOf(g, n.parents, n.mainParent) && n.Diff() <= g.Keys
  }

  ghost predicate ColourOk(g: Graph, k: nat, n: Node)
    requires n.mainParent in g && n.Diff() <= g.Keys
  {
    && n.blue.Keys == BlueSet(g, k, n.mainParent, n.Diff())
    && n.blueNum == g[n.mainParent].blueNum + 1 + |n.blue|
  }

  ghost predicate OrderOk(g: Graph, n: Node)
    requires DistinctHashes(g) && n.Diff() <= g.Keys
  {
    Numbered(n.blue, n.red, DiffSeq(g, n.parents, n.mainParent, n.blue.Keys, n.Diff()))
  }

  ghost predicate GenesisOk(n: Node)
  {
    n.layer == 0 && n.height == 0 && n.blueNum == 0 && n.blue == map[] && n.red == map[]
  }

  ghost predicate Derived(g: Graph, k: nat, b: Id)
    requires DistinctHashes(g) && b in g
  {
    if b == 0 then GenesisOk(g[b])
    else MainParentOk(g, g[b]) && DiffOk(g, g[b]) && ColourOk(g, k, g[b]) && OrderOk(g, g[b])
  }

  ghost predicate Wf(g: Graph, k: nat)
  {
    DistinctHashes(g) && forall b {:trigger Derived(g, k, b)} :: b in g ==> Derived(g, k, b)
  }

  // What a well-formed graph says about one block, a clause at a time.

  lemma MainParentFacts(g: Graph, k: nat, b: Id)
    requires Wf(g, k) && b in g && b != 0
    ensures IsBluest(g, g[b].parents, g[b].mainParent) && g[b].height == g[g[b].mainParent].height + 1
    ensures g[b].blueNum == g[g[b].mainParent].blueNum + 1 + |g[b].blue|
  {
    assert Derived(g, k, b);
  }

  lemma ParentIsLower(g: Graph, k: nat, b: Id, p: Id)
    requires Wf(g, k) && b in g && p in g[b].parents
    ensures g[p].layer < g[b].layer && g[p].blueNum < g[b].blueNum
  {
    assert Derived(g, k, b);
  }

  lemma DiffFacts(g: Graph, k: nat, b: Id)
    requires Wf(g, k) && b in g
    ensures g[b].Diff() <= g.Keys && g[b].blue.Keys !! g[b].red.Keys
    ensures b == 0 ==> g[b].Diff() == {}
    ensures b != 0 ==> g[b].Diff() == DiffOf(g, g[b].parents, g[b].mainParent)
  {
    assert Derived(g, k, b);
  }

  lemma ColourFacts(g: Graph, k: nat, b: Id, x: Id)
    requires Wf(g, k) && b in g && x in g[b].Diff()
    ensures b != 0 && x in g && (x in g[b].blue <==> BlueFor(g, k, g[b].mainParent, x))
  {
    assert Derived(g, k, b);
  }

  lemma NumberFacts(g: Graph, k: nat, b: Id)
    requires Wf(g, k) && b in g && b != 0
    ensures Numbered(g[b].blue, g[b].red, DiffOrd(g, k, b))
  {
    assert Derived(g, k, b);
  }

  /** The order that block `b` gives to its diff-anticone. */
  ghost function DiffOrd(g: Graph, k: nat, b: Id): seq<Id>
    requires Wf(g, k) && b in g && b != 0
  {
    DiffFacts(g, k, b);
    DiffSeq(g, g[b].parents, g[b].mainParent, g[b].blue.Keys, g[b].Diff())
  }

  /** The order of `b`'s closed past: main parent's order, then the diff-anticone, then `b`. */
  ghost function Order(g: Graph, k: nat, b: Id): seq<Id>
    requires Wf(g, k) && b in g
    decreases b
  {
    if b == 0 then [0]
    else Order(g, k, g[b].mainParent) + DiffOrd(g, k, b) + [b]
  }

  // ---------------------------------------------------------------- what one block adds

  /** A cone is the main parent's cone, the diff-anticone and the block, without overlap. */
  lemma ConeSplit(g: Graph, k: nat, b: Id)
    requires Wf(g, k) && b in g && b != 0
    ensures var mp := g[b].mainParent;
      && Cone(g, b) == Cone(g, mp) + g[b].Diff() + {b}
      && g[b].Diff() !! Cone(g, mp)
      && b !in Cone(g, mp) && b !in g[b].Diff()
  {
    DiffFacts(g, k, b);
    ConeIsSelfAndPast(g, b);
    SplitSets(Cone(g, b), b, Past(g, b), Cone(g, g[b].mainParent), g[b].Diff());
  }

  lemma SplitSets(cone: set<Id>, b: Id, past: set<Id>, low: set<Id>, diff: set<Id>)
    requires cone == {b} + past && low <= past && diff == past - low && b !in past
    ensures cone == low + diff + {b} && diff !! low && b !in low && b !in diff
  {}

  lemma DiffOrdIsPermutation(g: Graph, k: nat, b: Id)
    requires Wf(g, k) && b in g && b != 0
    ensures g[b].Diff() <= g.Keys && Topological(g, g[b].Diff(), DiffOrd(g, k, b))
    ensures Elems(DiffOrd(g, k, b)) == g[b].Diff()
    ensures NoDup(DiffOrd(g, k, b))
    ensures |DiffOrd(g, k, b)| == |g[b].blue| + |g[b].red|
  {
    DiffFacts(g, k, b);
    var n := g[b];
    DiffSeqIsTopologicalPermutation(g, n.parents, n.mainParent, n.blue.Keys, n.Diff());
    TopologicalMembers(g, n.Diff(), DiffOrd(g, k, b));
    NoDupSize(DiffOrd(g, k, b));
  }

  lemma {:induction false} NoDupSize(s: seq<Id>)
    requires NoDup(s)
    ensures |Elems(s)| == |s|
  {
    if s == [] {
      ElemsAre(s, {});
    } else {
      var t := s[..|s| - 1];
      NoDupSize(t);
      LastAndInit(s);
      ElemsAre(s, Elems(t) + {s[|s| - 1]});
    }
  }

  // ---------------------------------------------------------------- the order of a cone

  lemma NoDupConcat(s: seq<Id>, t: seq<Id>)
    requires NoDup(s) && NoDup(t) && Elems(s) !! Elems(t)
    ensures NoDup(s + t) && Elems(s + t) == Elems(s) + Elems(t)
  {
    var u := s + t;
    forall i, j | 0 <= i < j < |u| ensures u[i] != u[j] {
      if i < |s| <= j {
        assert s[i] in Elems(s) && t[j - |s|] in Elems(t);
      }
    }
    ElemsAre(u, Elems(s) + Elems(t));
  }

  /** The order lists the closed past, each block once, and ends with the block. */
  lemma {:induction false} OrderIsCone(g: Graph, k: nat, b: Id)
    requires Wf(g, k) && b in g
    ensures NoDup(Order(g, k, b)) && Elems(Order(g, k, b)) == Cone(g, b)
    ensures Order(g, k, b) != [] && Order(g, k, b)[|Order(g, k, b)| - 1] == b
    decreases b
  {
    if b == 0 {
      ElemsAre([0], {0});
    } else {
      var mp := g[b].mainParent;
      OrderIsCone(g, k, mp);
      DiffOrdIsPermutation(g, k, b);
      ConeSplit(g, k, b);
      NoDupConcat(Order(g, k, mp), DiffOrd(g, k, b));
      ElemsAre([b], {b});
      NoDupConcat(Order(g, k, mp) + DiffOrd(g, k, b), [b]);
    }
  }

  /** Order numbers stay below the number of ids, hence below the "unordered" mark. */
  lemma OrderIsShort(g: Graph, k: nat, b: Id)
    requires Wf(g, k) && b in g
    ensures |Order(g, k, b)| <= b + 1 <= MAX_ID
  {
    OrderIsCone(g, k, b);
    NoDupSize(Order(g, k, b));
    ConeBounds(g, b);
    SizeBelow(Cone(g, b), b + 1);
  }

  lemma {:induction false} SizeBelow(s: set<Id>, n: nat)
    requires forall x :: x in s ==> x < n
    ensures |s| <= n
  {
    if n > 0 {
      SizeBelow(s - {n - 1}, n - 1);
    }
  }

  lemma ThreeParts(low: seq<Id>, mid: seq<Id>, b: Id, i: nat)
    requires i <= |low| + |mid|
    ensures var s := low + mid + [b];
      && (i < |low| ==> s[i] == low[i] && s[..i] == low[..i])
      && (|low| <= i < |low| + |mid| ==> s[i] == mid[i - |low|] && s[..i] == low + mid[..i - |low|])
      && (i == |low| + |mid| ==> s[i] == b && s[..i] == low + mid)
  {}

  lemma EarlierIn(low: seq<Id>, mid: seq<Id>, b: Id, i: nat, p: Id)
    requires |low| <= i <= |low| + |mid| && (p in low || p in mid[..i - |low|])
    ensures p in (low + mid + [b])[..i]
  {
    assert (low + mid + [b])[..i] == low + mid[..i - |low|];
  }

  /** Every parent stands before its child. */
  lemma {:induction false} OrderIsTopological(g: Graph, k: nat, b: Id, i: nat, p: Id)
    requires Wf(g, k) && b in g && i < |Order(g, k, b)|
    requires Order(g, k, b)[i] in g && p in g[Order(g, k, b)[i]].parents
    ensures p in Order(g, k, b)[..i]
    decreases b
  {
    if b != 0 {
      var low, mid := Order(g, k, g[b].mainParent), DiffOrd(g, k, b);
      ThreeParts(low, mid, b, i);
      if i < |low| {
        OrderIsTopological(g, k, g[b].mainParent, i, p);
      } else {
        LateParent(g, k, b, i - |low|, p);
        EarlierIn(low, mid, b, i, p);
      }
    }
  }

  lemma ParentIsLowOrDiff(g: Graph, k: nat, b: Id, x: Id, p: Id)
    requires Wf(g, k) && b in g && b != 0 && x in g && p in g[x].parents
    requires x == b || x in g[b].Diff()
    ensures p in Cone(g, g[b].mainParent) || p in g[b].Diff()
  {
    ConeSplit(g, k, b);
    ConeHasParents(g, b, x, p);
    ConeBounds(g, b);
  }

  /** A parent of a diff-anticone block, or of the block itself, is lower or earlier. */
  lemma LateParent(g: Graph, k: nat, b: Id, j: nat, p: Id)
    requires Wf(g, k) && b in g && b != 0
    requires j <= |DiffOrd(g, k, b)|
    requires var x := (DiffOrd(g, k, b) + [b])[j]; x in g && p in g[x].parents
    ensures p in Order(g, k, g[b].mainParent) || p in DiffOrd(g, k, b)[..j]
  {
    var mid := DiffOrd(g, k, b);
    var x := (mid + [b])[j];
    DiffOrdIsPermutation(g, k, b);
    assert j < |mid| ==> x in Elems(mid);
    ParentIsLowOrDiff(g, k, b, x, p);
    if p in g[b].Diff() {
      assert p in Elems(mid);
      if j < |mid| {
        TopologicalAt(g, g[b].Diff(), mid, j);
      } else {
        assert mid[..j] == mid;
      }
    } else {
      assert p in Elems(Order(g, k, g[b].mainParent)) by {
        OrderIsCone(g, k, g[b].mainParent);
      }
    }
  }

  /** The order of a block begins with the order of every block of its main-parent chain. */
  lemma {:induction false} OrderPrefix(g: Graph, k: nat, b: Id, x: Id)
    requires Wf(g, k) && b in g && x in Chain(g, b)
    ensures x in g && Order(g, k, x) <= Order(g, k, b)
    decreases b
  {
    if x != b {
      OrderPrefix(g, k, g[b].mainParent, x);
    }
  }

  // ---------------------------------------------------------------- layers and blue numbers

  lemma {:induction false} PastIsLower(g: Graph, k: nat, b: Id, x: Id)
    requires Wf(g, k) && b in g && x in Cone(g, b) && x != b
    ensures x in g && g[x].layer < g[b].layer && g[x].blueNum < g[b].blueNum
    decreases b
  {
    var p :| p in g[b].parents && x in Cone(g, p);
    ParentIsLower(g, k, b, p);
    if x != p {
      PastIsLower(g, k, p, x);
    }
  }

  // ---------------------------------------------------------------- frame

  lemma {:induction false} KSegmentFrame(g: Graph, h: Graph, k: nat, c: Id, count: nat, deep: nat)
    requires Within(g, h) && c in g
    ensures KSegment(g, k, c, count, deep) == KSegment(h, k, c, count, deep)
    decreases c
  {
    var total := count + 1 + |g[c].blue|;
    KSegmentUnfold(g, k, c, count, deep, total);
    KSegmentUnfold(h, k, c, count, deep, total);
    if c != 0 {
      KSegmentFrame(g, h, k, g[c].mainParent, total, deep + 1);
    }
  }

  lemma BlueForFrame(g: Graph, h: Graph, k: nat, mp: Id, x: Id)
    requires Within(g, h) && mp in g && x in g
    ensures BlueFor(g, k, mp, x) <==> BlueFor(h, k, mp, x)
  {
    KSegmentFrame(g, h, k, mp, 1, 1);
    ChainFrame(g, h, x);
  }

  lemma DiffOfFrame(g: Graph, h: Graph, ps: set<Id>, mp: Id)
    requires Within(g, h) && ps <= g.Keys && mp in ps
    ensures DiffOf(g, ps, mp) == DiffOf(h, ps, mp) && DiffOf(g, ps, mp) <= g.Keys
  {
    PastOfFrame(g, h, ps);
    ConeFrame(g, h, mp);
    assert DiffOf(g, ps, mp) <= g.Keys by {
      PastOfBounds(g, ps);
    }
  }

  lemma DiffOkFrame(g: Graph, h: Graph, n: Node)
    requires Within(g, h) && n.parents <= g.Keys && n.mainParent in n.parents
    ensures DiffOk(g, n) <==> DiffOk(h, n)
  {
    DiffOfFrame(g, h, n.parents, n.mainParent);
  }

  lemma MainParentOkFrame(g: Graph, h: Graph, n: Node)
    requires Within(g, h) && n.parents <= g.Keys
    ensures MainParentOk(g, n) <==> MainParentOk(h, n)
  {}

  lemma ColourOkFrame(g: Graph, h: Graph, k: nat, n: Node)
    requires Within(g, h) && n.mainParent in g && n.Diff() <= g.Keys
    ensures ColourOk(g, k, n) <==> ColourOk(h, k, n)
  {
    BlueSetFrame(g, h, k, n.mainParent, n.Diff());
  }

  lemma BlueSetFrame(g: Graph, h: Graph, k: nat, mp: Id, diff: set<Id>)
    requires Within(g, h) && mp in g && diff <= g.Keys
    ensures BlueSet(g, k, mp, diff) == BlueSet(h, k, mp, diff)
  {
    forall x | x in diff ensures BlueFor(g, k, mp, x) <==> BlueFor(h, k, mp, x) {
      BlueForFrame(g, h, k, mp, x);
    }
  }

  lemma OrderOkFrame(g: Graph, h: Graph, n: Node)
    requires DistinctHashes(g) && DistinctHashes(h) && Within(g, h) && n.Diff() <= g.Keys
    ensures OrderOk(g, n) <==> OrderOk(h, n)
  {
    DiffSeqFrame(g, h, n.parents, n.mainParent, n.blue.Keys, n.Diff());
  }

  /** Being well derived depends on nothing but the block's past. */
  lemma DerivedFrame(g: Graph, h: Graph, k: nat, b: Id)
    requires DistinctHashes(g) && DistinctHashes(h) && Within(g, h) && b in g
    ensures Derived(g, k, b) <==> Derived(h, k, b)
  {
    if b != 0 {
      var n := g[b];
      MainParentOkFrame(g, h, n);
      DiffOkFrame(g, h, n);
      if DiffOk(g, n) {
        ColourOkFrame(g, h, k, n);
        OrderOkFrame(g, h, n);
      }
    }
  }

  lemma {:induction false} OrderFrame(g: Graph, h: Graph, k: nat, b: Id)
    requires Wf(g, k) && Wf(h, k) && Within(g, h) && b in g
    ensures Order(g, k, b) == Order(h, k, b)
    decreases b
  {
    if b != 0 {
      DiffFacts(g, k, b);
      OrderFrame(g, h, k, g[b].mainParent);
      DiffSeqFrame(g, h, g[b].parents, g[b].mainParent, g[b].blue.Keys, g[b].Diff());
    }
  }

  lemma HashesWithin(g: Graph, h: Graph)
    requires DistinctHashes(h) && Within(g, h)
    ensures DistinctHashes(g)
  {
    assert forall a, b :: a in g && b in g && SameHash(g, a, b) ==> SameHash(h, a, b);
  }

  /** A parent-closed part of a well-formed graph is well formed. */
  lemma WfRestrict(g: Graph, h: Graph, k: nat)
    requires Wf(h, k) && Within(g, h)
    ensures Wf(g, k)
  {
    HashesWithin(g, h);
    forall b | b in g ensures Derived(g, k, b) {
      assert Derived(h, k, b);
      DerivedFrame(g, h, k, b);
    }
  }

  /** A well-derived block on top of a well-formed graph keeps it well formed. */
  lemma WfExtend(g: Graph, h: Graph, k: nat, b: Id)
    requires Wf(g, k) && Within(g, h) && DistinctHashes(h)
    requires b !in g && h.Keys == g.Keys + {b} && Derived(h, k, b)
    ensures Wf(h, k)
  {
    forall x | x in h ensures Derived(h, k, x) {
      if x in g {
        assert Derived(g, k, x);
        DerivedFrame(g, h, k, x);
      }
    }
  }
}
