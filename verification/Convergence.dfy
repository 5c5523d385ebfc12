/** Two nodes that know the same blocks agree, in whatever order the blocks arrived.

    Ids differ from node to node; the renaming `f` takes the ids of one graph to
    those of the other.  Sets are compared by corresponding members, sequences
    by renaming them. */
module Convergence {
  import opened Dag
  import opened Blue
  import opened DiffOrder
  import opened Spec
  import opened State

  type Renaming = map<Id, Id>

  /** Corresponding blocks are members of corresponding sets. */
  ghost predicate Corr(f: Renaming, s: set<Id>, t: set<Id>)
  {
    s <= f.Keys && t <= f.Values && forall x {:trigger Named(f, x)} :: Named(f, x) ==> (x in s <==> f[x] in t)
  }

  ghost predicate Named(f: Renaming, x: Id) { x in f }

  ghost predicate Injective(f: Renaming)
  {
    forall x, y {:trigger Named(f, x), Named(f, y)} :: Named(f, x) && Named(f, y) && f[x] == f[y] ==> x == y
  }

  lemma CorrAt(f: Renaming, s: set<Id>, t: set<Id>, x: Id)
    requires Corr(f, s, t) && x in f
    ensures x in s <==> f[x] in t
  {
    assert Named(f, x);
  }

  /** Every member on the other side has a counterpart. */
  ghost function Back(f: Renaming, s: set<Id>, t: set<Id>, y: Id): (x: Id)
    requires Corr(f, s, t) && y in t
    ensures x in f && f[x] == y && x in s
  {
    var x := Preimage(f, y);
    CorrAt(f, s, t, x);
    x
  }

  ghost function Preimage(f: Renaming, y: Id): (x: Id)
    requires y in f.Values
    ensures x in f && f[x] == y
  {
    var x :| x in f && f[x] == y;
    x
  }

  /** The two graphs have the same blocks: hash, priority and parents. */
  ghost predicate Twins(g: Graph, h: Graph, f: Renaming)
  {
    && f.Keys == g.Keys && f.Values == h.Keys && Injective(f)
    && forall x {:trigger Twin(g, h, f, x)} :: x in f ==> Twin(g, h, f, x)
  }

  ghost predicate Twin(g: Graph, h: Graph, f: Renaming, x: Id)
    requires x in f && f.Keys == g.Keys && f.Values == h.Keys
  {
    && f[x] in h && h[f[x]].hash == g[x].hash && h[f[x]].priority == g[x].priority
    && Corr(f, g[x].parents, h[f[x]].parents)
  }

  lemma TwinOf(g: Graph, h: Graph, f: Renaming, x: Id)
    requires Twins(g, h, f) && x in g
    ensures f[x] in h && h[f[x]].hash == g[x].hash && h[f[x]].priority == g[x].priority
    ensures Corr(f, g[x].parents, h[f[x]].parents)
  {
    assert Twin(g, h, f, x);
  }

  lemma GenesisIsTwin(g: Graph, h: Graph, f: Renaming, x: Id)
    requires Twins(g, h, f) && x in g
    ensures f[x] in h && (x == 0 <==> f[x] == 0)
  {
    TwinOf(g, h, f, x);
    if x != 0 {
      CorrAt(f, g[x].parents, h[f[x]].parents, g[x].mainParent);
    }
    if f[x] != 0 {
      var p := Back(f, g[x].parents, h[f[x]].parents, h[f[x]].mainParent);
    }
  }

  // ---------------------------------------------------------------- sets

  lemma {:induction false} CorrSize(f: Renaming, s: set<Id>, t: set<Id>)
    requires Injective(f) && Corr(f, s, t)
    ensures |s| == |t|
    decreases |s|
  {
    if s == {} {
      if t != {} {
        var y :| y in t;
        var x := Back(f, s, t, y);
        assert false;
      }
    } else {
      var x :| x in s;
      CorrAt(f, s, t, x);
      CorrWithout(f, s, t, x);
      CorrSize(f, s - {x}, t - {f[x]});
    }
  }

  lemma CorrWithout(f: Renaming, s: set<Id>, t: set<Id>, x: Id)
    requires Injective(f) && Corr(f, s, t) && x in f
    ensures Corr(f, s - {x}, t - {f[x]})
  {
    assert Named(f, x);
  }

  lemma CorrParts(f: Renaming, s: set<Id>, t: set<Id>, s': set<Id>, t': set<Id>)
    requires Corr(f, s, t) && Corr(f, s', t')
    ensures Corr(f, s * s', t * t') && Corr(f, s - s', t - t')
  {}

  /** Closed pasts depend on nothing but the parents. */
  lemma {:induction false} ConeCorr(g: Graph, h: Graph, f: Renaming, b: Id)
    requires Twins(g, h, f) && b in g
    ensures f[b] in h && Corr(f, Cone(g, b), Cone(h, f[b]))
    decreases b
  {
    TwinOf(g, h, f, b);
    forall p | p in g[b].parents ensures f[p] in h && Corr(f, Cone(g, p), Cone(h, f[p])) {
      ConeCorr(g, h, f, p);
    }
    ConeCorrIfPast(g, h, f, b);
  }

  lemma ConeCorrIfPast(g: Graph, h: Graph, f: Renaming, b: Id)
    requires f.Keys == g.Keys && f.Values == h.Keys && Injective(f) && b in g && f[b] in h
    requires Corr(f, g[b].parents, h[f[b]].parents)
    requires forall p :: p in g[b].parents ==> f[p] in h && Corr(f, Cone(g, p), Cone(h, f[p]))
    ensures Corr(f, Cone(g, b), Cone(h, f[b]))
  {
    var past, past' := Past(g, b), Past(h, f[b]);
    assert past <= f.Keys && past' <= f.Values by {
      PastOfBounds(g, g[b].parents);
      PastOfBounds(h, h[f[b]].parents);
    }
    forall x | Named(f, x) ensures x in past <==> f[x] in past' {
      PastMember(g, h, f, g[b].parents, h[f[b]].parents, x);
    }
    CorrWith(f, past, past', b);
    ConeIsSelfAndPast(g, b);
    ConeIsSelfAndPast(h, f[b]);
  }

  lemma CorrWith(f: Renaming, s: set<Id>, t: set<Id>, x: Id)
    requires Injective(f) && Corr(f, s, t) && x in f
    ensures Corr(f, {x} + s, {f[x]} + t)
  {
    assert Named(f, x);
  }

  lemma PastMember(g: Graph, h: Graph, f: Renaming, ps: set<Id>, qs: set<Id>, x: Id)
    requires f.Keys == g.Keys && f.Values == h.Keys && x in f && ps <= g.Keys && qs <= h.Keys && Corr(f, ps, qs)
    requires forall p :: p in ps ==> f[p] in h && Corr(f, Cone(g, p), Cone(h, f[p]))
    ensures x in PastOf(g, ps) <==> f[x] in PastOf(h, qs)
  {
    if x in PastOf(g, ps) {
      var p :| p in ps && x in Cone(g, p);
      CorrAt(f, ps, qs, p);
      CorrAt(f, Cone(g, p), Cone(h, f[p]), x);
    }
    if f[x] in PastOf(h, qs) {
      var q :| q in qs && f[x] in Cone(h, q);
      var p := Back(f, ps, qs, q);
      CorrAt(f, Cone(g, p), Cone(h, q), x);
    }
  }

  lemma PastOfCorr(g: Graph, h: Graph, f: Renaming, ps: set<Id>, qs: set<Id>)
    requires Twins(g, h, f) && ps <= g.Keys && qs <= h.Keys && Corr(f, ps, qs)
    ensures Corr(f, PastOf(g, ps), PastOf(h, qs))
  {
    PastOfBounds(g, ps);
    PastOfBounds(h, qs);
    forall p | p in ps ensures f[p] in h && Corr(f, Cone(g, p), Cone(h, f[p])) {
      ConeCorr(g, h, f, p);
    }
    forall x | Named(f, x) ensures x in PastOf(g, ps) <==> f[x] in PastOf(h, qs) {
      PastMember(g, h, f, ps, qs, x);
    }
  }

  lemma DiffOfCorr(g: Graph, h: Graph, f: Renaming, ps: set<Id>, qs: set<Id>, mp: Id)
    requires Twins(g, h, f) && ps <= g.Keys && qs <= h.Keys && Corr(f, ps, qs) && mp in g
    ensures f[mp] in h && Corr(f, DiffOf(g, ps, mp), DiffOf(h, qs, f[mp]))
  {
    PastOfCorr(g, h, f, ps, qs);
    ConeCorr(g, h, f, mp);
    CorrParts(f, PastOf(g, ps), PastOf(h, qs), Cone(g, mp), Cone(h, f[mp]));
  }

  // ---------------------------------------------------------------- what the nodes derive

  /** Corresponding blocks have been given the same main parent, numbers and colours. */
  ghost predicate Alike(g: Graph, h: Graph, f: Renaming, x: Id)
    requires x in g && x in f
  {
    && f[x] in h && h[f[x]].layer == g[x].layer && h[f[x]].height == g[x].height && h[f[x]].blueNum == g[x].blueNum
    && (x != 0 ==> g[x].mainParent in f && f[g[x].mainParent] == h[f[x]].mainParent)
    && Corr(f, g[x].blue.Keys, h[f[x]].blue.Keys) && Corr(f, g[x].Diff(), h[f[x]].Diff())
  }

  ghost predicate AlikeBelow(g: Graph, h: Graph, f: Renaming, n: nat)
    requires f.Keys == g.Keys
  {
    forall x {:trigger Alike(g, h, f, x)} :: x in g && x < n ==> Alike(g, h, f, x)
  }

  ghost function Renamed(f: Renaming, s: seq<Id>): seq<Id>
    requires Elems(s) <= f.Keys
  {
    seq(|s|, i requires 0 <= i < |s| => assert s[i] in Elems(s); f[s[i]])
  }

  lemma RenamedConcat(f: Renaming, s: seq<Id>, t: seq<Id>)
    requires Elems(s) <= f.Keys && Elems(t) <= f.Keys
    ensures Elems(s + t) <= f.Keys && Renamed(f, s + t) == Renamed(f, s) + Renamed(f, t)
  {
    assert forall x :: x in s + t ==> x in Elems(s) || x in Elems(t);
  }

  lemma RenamedOne(f: Renaming, x: Id)
    requires x in f
    ensures Elems([x]) <= f.Keys && Renamed(f, [x]) == [f[x]]
  {}

  lemma RenamedCons(f: Renaming, x: Id, s: seq<Id>)
    requires x in f && Elems(s) <= f.Keys
    ensures Elems([x] + s) <= f.Keys && Renamed(f, [x] + s) == [f[x]] + Renamed(f, s)
  {
    RenamedOne(f, x);
    RenamedConcat(f, [x], s);
  }

  lemma RenamedMember(f: Renaming, s: seq<Id>, x: Id)
    requires Injective(f) && Elems(s) <= f.Keys && x in f
    ensures x in s <==> f[x] in Renamed(f, s)
  {
    if x in s {
      var i :| 0 <= i < |s| && s[i] == x;
      assert Renamed(f, s)[i] == f[x];
    }
    if f[x] in Renamed(f, s) {
      var i :| 0 <= i < |s| && Renamed(f, s)[i] == f[x];
      assert s[i] in Elems(s) && Named(f, s[i]) && Named(f, x);
    }
  }

  lemma RenamedElems(f: Renaming, s: seq<Id>)
    requires Injective(f) && Elems(s) <= f.Keys
    ensures Corr(f, Elems(s), Elems(Renamed(f, s)))
  {
    forall x | Named(f, x) ensures x in Elems(s) <==> f[x] in Elems(Renamed(f, s)) {
      RenamedMember(f, s, x);
    }
    forall y | y in Elems(Renamed(f, s)) ensures y in f.Values {
      var i :| 0 <= i < |s| && Renamed(f, s)[i] == y;
      assert s[i] in Elems(s);
    }
  }

  lemma {:induction false} ChainCorr(g: Graph, h: Graph, f: Renaming, n: nat, x: Id)
    requires Twins(g, h, f) && AlikeBelow(g, h, f, n) && x in g && x < n
    ensures f[x] in h && Elems(Chain(g, x)) <= f.Keys && Renamed(f, Chain(g, x)) == Chain(h, f[x])
    decreases x
  {
    GenesisIsTwin(g, h, f, x);
    if x == 0 {
      RenamedOne(f, x);
    } else {
      assert Alike(g, h, f, x);
      ChainCorr(g, h, f, n, g[x].mainParent);
      RenamedCons(f, x, Chain(g, g[x].mainParent));
    }
  }

  lemma SameStep(g: Graph, h: Graph, f: Renaming, n: nat, c: Id)
    requires Twins(g, h, f) && AlikeBelow(g, h, f, n) && c in g && c < n
    ensures f[c] in h && |h[f[c]].blue| == |g[c].blue| && (c == 0 <==> f[c] == 0)
    ensures c != 0 ==> f[g[c].mainParent] == h[f[c]].mainParent
  {
    assert Alike(g, h, f, c);
    GenesisIsTwin(g, h, f, c);
    CorrSize(f, g[c].blue.Keys, h[f[c]].blue.Keys);
    assert |g[c].blue| == |g[c].blue.Keys| && |h[f[c]].blue| == |h[f[c]].blue.Keys|;
  }

  ghost predicate SegmentsCorr(g: Graph, h: Graph, f: Renaming, k: nat, c: Id, count: nat, deep: nat)
    requires c in g && c in f && f[c] in h
  {
    var seg := KSegment(g, k, c, count, deep);
    Elems(seg) <= f.Keys && Renamed(f, seg) == KSegment(h, k, f[c], count, deep)
  }

  lemma {:induction false} KSegmentCorr(g: Graph, h: Graph, f: Renaming, n: nat, k: nat, c: Id, count: nat, deep: nat)
    requires Twins(g, h, f) && AlikeBelow(g, h, f, n) && c in g && c < n
    ensures f[c] in h && SegmentsCorr(g, h, f, k, c, count, deep)
    decreases c
  {
    SameStep(g, h, f, n, c);
    var total := count + 1 + |g[c].blue|;
    if (total > k && deep + 1 > 2 * MAX_TIP_LAYER_GAP) || c == 0 {
      SegmentEnds(g, h, f, k, c, count, deep, total);
    } else {
      KSegmentCorr(g, h, f, n, k, g[c].mainParent, total, deep + 1);
      SegmentGoesOn(g, h, f, k, c, count, deep, total);
    }
  }

  lemma SegmentEnds(g: Graph, h: Graph, f: Renaming, k: nat, c: Id, count: nat, deep: nat, total: nat)
    requires c in g && c in f && f[c] in h && (c == 0 <==> f[c] == 0)
    requires total == count + 1 + |g[c].blue| == count + 1 + |h[f[c]].blue|
    requires (total > k && deep + 1 > 2 * MAX_TIP_LAYER_GAP) || c == 0
    ensures SegmentsCorr(g, h, f, k, c, count, deep)
  {
    KSegmentUnfold(g, k, c, count, deep, total);
    KSegmentUnfold(h, k, f[c], count, deep, total);
    RenamedOne(f, c);
  }

  lemma SegmentGoesOn(g: Graph, h: Graph, f: Renaming, k: nat, c: Id, count: nat, deep: nat, total: nat)
    requires c in g && c in f && f[c] in h && c != 0 && f[c] != 0
    requires total == count + 1 + |g[c].blue| == count + 1 + |h[f[c]].blue|
    requires !(total > k && deep + 1 > 2 * MAX_TIP_LAYER_GAP)
    requires g[c].mainParent in f && f[g[c].mainParent] == h[f[c]].mainParent
    requires SegmentsCorr(g, h, f, k, g[c].mainParent, total, deep + 1)
    ensures SegmentsCorr(g, h, f, k, c, count, deep)
  {
    KSegmentUnfold(g, k, c, count, deep, total);
    KSegmentUnfold(h, k, f[c], count, deep, total);
    RenamedCons(f, c, KSegment(g, k, g[c].mainParent, total, deep + 1));
  }

  lemma BlueForCorr(g: Graph, h: Graph, f: Renaming, n: nat, k: nat, mp: Id, x: Id)
    requires Twins(g, h, f) && AlikeBelow(g, h, f, n) && mp in g && mp < n && x in g && x < n
    ensures f[mp] in h && f[x] in h && (BlueFor(g, k, mp, x) <==> BlueFor(h, k, f[mp], f[x]))
  {
    ChainCorr(g, h, f, n, x);
    KSegmentCorr(g, h, f, n, k, mp, 1, 1);
    if BlueFor(g, k, mp, x) {
      var c :| c in Chain(g, x) && c in KChain(g, k, mp);
      assert c in Elems(Chain(g, x));
      RenamedMember(f, Chain(g, x), c);
      RenamedMember(f, KChain(g, k, mp), c);
    }
    if BlueFor(h, k, f[mp], f[x]) {
      var d :| d in Chain(h, f[x]) && d in KChain(h, k, f[mp]);
      var i :| 0 <= i < |Chain(h, f[x])| && Chain(h, f[x])[i] == d;
      var c := Chain(g, x)[i];
      assert c in Elems(Chain(g, x)) && f[c] == d;
      RenamedMember(f, KChain(g, k, mp), c);
    }
  }

  // ---------------------------------------------------------------- choosing and sorting

  lemma BluerCorr(g: Graph, h: Graph, f: Renaming, n: nat, x: Id, y: Id)
    requires Twins(g, h, f) && AlikeBelow(g, h, f, n) && x in g && y in g && x < n && y < n
    ensures f[x] in h && f[y] in h && (Bluer(g[x], g[y]) <==> Bluer(h[f[x]], h[f[y]]))
  {
    TwinOf(g, h, f, x);
    TwinOf(g, h, f, y);
    assert Alike(g, h, f, x) && Alike(g, h, f, y);
  }

  lemma BluestCorr(g: Graph, h: Graph, f: Renaming, n: nat, s: set<Id>, t: set<Id>, m: Id)
    requires Twins(g, h, f) && AlikeBelow(g, h, f, n) && s <= g.Keys && t <= h.Keys && Corr(f, s, t)
    requires IsBluest(g, s, m) && forall x :: x in s ==> x < n
    ensures IsBluest(h, t, f[m])
  {
    CorrAt(f, s, t, m);
    forall y | y in t && y != f[m] ensures Bluer(h[f[m]], h[y]) {
      var x := Back(f, s, t, y);
      BluerCorr(g, h, f, n, m, x);
    }
  }

  lemma CorrUnique(f: Renaming, s: set<Id>, t: set<Id>, t': set<Id>)
    requires Corr(f, s, t) && Corr(f, s, t')
    ensures t == t'
  {
    forall y | y in t ensures y in t' {
      CorrAt(f, s, t', Back(f, s, t, y));
    }
    forall y | y in t' ensures y in t {
      CorrAt(f, s, t, Back(f, s, t', y));
    }
  }

  lemma SortedCorr(g: Graph, h: Graph, f: Renaming, n: nat, s: set<Id>, t: set<Id>)
    requires Twins(g, h, f) && AlikeBelow(g, h, f, n) && DistinctHashes(g) && DistinctHashes(h)
    requires s <= g.Keys && t <= h.Keys && Corr(f, s, t) && forall x :: x in s ==> x < n
    ensures Elems(Sorted(g, s)) <= f.Keys && Renamed(f, Sorted(g, s)) == Sorted(h, t)
  {
    SortedIsSorted(g, s);
    var r := Sorted(g, s);
    var r' := Renamed(f, r);
    RenamedElems(f, r);
    CorrUnique(f, s, t, Elems(r'));
    forall i | 0 <= i < |r'| ensures r'[i] in t {
      assert r'[i] in Elems(r');
    }
    forall i, j | 0 <= i < j < |r'| ensures Bluer(h[r'[i]], h[r'[j]]) {
      BluerCorr(g, h, f, n, r[i], r[j]);
    }
    SortedUnique(h, t, r');
  }

  /** Both graphs, as far as the order inside a diff-anticone looks at them. */
  ghost predicate Setting(g: Graph, h: Graph, f: Renaming, n: nat, blue: set<Id>, blue': set<Id>, diff: set<Id>,
                          diff': set<Id>)
  {
    && Twins(g, h, f) && AlikeBelow(g, h, f, n) && DistinctHashes(g) && DistinctHashes(h)
    && diff <= g.Keys && diff' <= h.Keys && Corr(f, diff, diff') && Corr(f, blue, blue')
    && 0 !in diff && forall x :: x in diff ==> x < n
  }

  lemma ArrangeCorr(g: Graph, h: Graph, f: Renaming, n: nat, blue: set<Id>, blue': set<Id>, diff: set<Id>,
                    diff': set<Id>,
                    last: Id, s: set<Id>, s': set<Id>)
    requires Setting(g, h, f, n, blue, blue', diff, diff') && last in f && Corr(f, s, s')
    ensures Elems(Arrange(g, last, blue, s, diff)) <= f.Keys
    ensures Renamed(f, Arrange(g, last, blue, s, diff)) == Arrange(h, f[last], blue', s', diff')
  {
    var rest, rest' := (s - {last}) * diff, (s' - {f[last]}) * diff';
    CorrWithout(f, s, s', last);
    CorrParts(f, s - {last}, s' - {f[last]}, diff, diff');
    CorrParts(f, rest, rest', blue, blue');
    var b, b', r, r' := rest * blue, rest' * blue', rest - blue, rest' - blue';
    SortedCorr(g, h, f, n, b, b');
    SortedCorr(g, h, f, n, r, r');
    CorrAt(f, s, s', last);
    CorrAt(f, diff, diff', last);
    var first := if last in diff && last in s then [last] else [];
    RenamedOne(f, last);
    RenamedConcat(f, first, Sorted(g, b));
    RenamedConcat(f, first + Sorted(g, b), Sorted(g, r));
  }

  lemma PendingCorr(g: Graph, h: Graph, f: Renaming, n: nat, blue: set<Id>, blue': set<Id>, diff: set<Id>,
                    diff': set<Id>,
                    done: seq<Id>, b: Id)
    requires Setting(g, h, f, n, blue, blue', diff, diff') && Elems(done) <= f.Keys && b in diff
    ensures f[b] in diff' && Elems(Pending(g, blue, diff, done, b)) <= f.Keys
    ensures Renamed(f, Pending(g, blue, diff, done, b)) == Pending(h, blue', diff', Renamed(f, done), f[b])
  {
    CorrAt(f, diff, diff', b);
    TwinOf(g, h, f, b);
    assert Alike(g, h, f, b);
    RenamedElems(f, done);
    CorrParts(f, g[b].parents, h[f[b]].parents, diff, diff');
    CorrParts(f, g[b].parents * diff, h[f[b]].parents * diff', Elems(done), Elems(Renamed(f, done)));
    ArrangeCorr(g, h, f, n, blue, blue', diff, diff', g[b].mainParent,
                Waiting(g, diff, done, b), Waiting(h, diff', Renamed(f, done), f[b]));
  }

  lemma {:induction false} EmitCorr(g: Graph, h: Graph, f: Renaming, n: nat, blue: set<Id>, blue': set<Id>,
                                    diff: set<Id>, diff': set<Id>, done: seq<Id>, b: Id)
    requires Setting(g, h, f, n, blue, blue', diff, diff') && Elems(done) <= f.Keys && b in diff
    ensures f[b] in diff' && Elems(Emit(g, blue, diff, done, b)) <= f.Keys
    ensures Renamed(f, Emit(g, blue, diff, done, b)) == Emit(h, blue', diff', Renamed(f, done), f[b])
    decreases b, 1, 0
  {
    CorrAt(f, diff, diff', b);
    RenamedMember(f, done, b);
    if b !in done {
      var xs := Pending(g, blue, diff, done, b);
      PendingCorr(g, h, f, n, blue, blue', diff, diff', done, b);
      EmitAllCorr(g, h, f, n, blue, blue', diff, diff', done, xs, b, f[b]);
      RenamedOne(f, b);
      RenamedConcat(f, EmitAll(g, blue, diff, done, xs, b), [b]);
    }
  }

  lemma {:induction false} EmitAllCorr(g: Graph, h: Graph, f: Renaming, n: nat, blue: set<Id>, blue': set<Id>,
                                       diff: set<Id>, diff': set<Id>, done: seq<Id>, xs: seq<Id>,
                                       bound: nat, bound': nat)
    requires Setting(g, h, f, n, blue, blue', diff, diff') && Elems(done) <= f.Keys && Elems(xs) <= f.Keys
    requires Inside(diff, xs, bound) && Inside(diff', Renamed(f, xs), bound')
    ensures Elems(EmitAll(g, blue, diff, done, xs, bound)) <= f.Keys
    ensures Renamed(f, EmitAll(g, blue, diff, done, xs, bound))
      == EmitAll(h, blue', diff', Renamed(f, done), Renamed(f, xs), bound')
    decreases bound, 0, |xs|
  {
    if xs != [] {
      HeadAndTail(xs);
      InsideSplit(diff, xs, bound);
      InsideSplit(diff', Renamed(f, xs), bound');
      EmitCorr(g, h, f, n, blue, blue', diff, diff', done, xs[0]);
      var rest := xs[1..];
      assert Elems(rest) <= f.Keys by {
        assert forall x :: x in rest ==> x in xs && x in Elems(xs);
      }
      assert Renamed(f, xs)[0] == f[xs[0]] && Renamed(f, xs)[1..] == Renamed(f, rest);
      EmitAllCorr(g, h, f, n, blue, blue', diff, diff', Emit(g, blue, diff, done, xs[0]), rest, bound, bound');
    }
  }

  // ---------------------------------------------------------------- one block after the other

  /** The layer is one more than the highest of the parents. */
  lemma LayerCorr(g: Graph, h: Graph, f: Renaming, n: nat, k: nat, b: Id)
    requires Twins(g, h, f) && AlikeBelow(g, h, f, n) && Wf(g, k) && Wf(h, k) && b in g && b != 0 && b <= n
    ensures f[b] in h && h[f[b]].layer == g[b].layer
  {
    TwinOf(g, h, f, b);
    GenesisIsTwin(g, h, f, b);
    var ps, qs := g[b].parents, h[f[b]].parents;
    var p := HighestParent(g, k, b);
    assert Alike(g, h, f, p);
    CorrAt(f, ps, qs, p);
    ParentIsLower(h, k, f[b], f[p]);
    var q := Back(f, ps, qs, HighestParent(h, k, f[b]));
    assert Alike(g, h, f, q);
    ParentIsLower(g, k, b, q);
  }

  ghost function HighestParent(g: Graph, k: nat, b: Id): (p: Id)
    requires Wf(g, k) && b in g && b != 0
    ensures p in g[b].parents && g[b].layer == g[p].layer + 1
  {
    assert Derived(g, k, b);
    var p :| p in g[b].parents && g[b].layer == g[p].layer + 1;
    p
  }

  lemma MainParentCorr(g: Graph, h: Graph, f: Renaming, n: nat, k: nat, b: Id)
    requires Twins(g, h, f) && AlikeBelow(g, h, f, n) && Wf(g, k) && Wf(h, k) && b in g && b != 0 && b <= n
    ensures f[b] in h && f[b] != 0 && g[b].mainParent in f && h[f[b]].mainParent == f[g[b].mainParent]
    ensures h[f[b]].height == g[b].height
  {
    TwinOf(g, h, f, b);
    GenesisIsTwin(g, h, f, b);
    var mp := g[b].mainParent;
    MainParentFacts(g, k, b);
    MainParentFacts(h, k, f[b]);
    BluestCorr(g, h, f, n, g[b].parents, h[f[b]].parents, mp);
    BluestUnique(h, h[f[b]].parents, f[mp], h[f[b]].mainParent);
    assert Alike(g, h, f, mp);
  }

  lemma DiffCorr(g: Graph, h: Graph, f: Renaming, n: nat, k: nat, b: Id)
    requires Twins(g, h, f) && AlikeBelow(g, h, f, n) && Wf(g, k) && Wf(h, k) && b in g && b != 0 && b <= n
    ensures f[b] in h && Corr(f, g[b].Diff(), h[f[b]].Diff())
  {
    MainParentCorr(g, h, f, n, k, b);
    TwinOf(g, h, f, b);
    DiffFacts(g, k, b);
    DiffFacts(h, k, f[b]);
    DiffOfCorr(g, h, f, g[b].parents, h[f[b]].parents, g[b].mainParent);
  }

  lemma BlueCorr(g: Graph, h: Graph, f: Renaming, n: nat, k: nat, b: Id)
    requires Twins(g, h, f) && AlikeBelow(g, h, f, n) && Wf(g, k) && Wf(h, k) && b in g && b != 0 && b <= n
    ensures f[b] in h && Corr(f, g[b].blue.Keys, h[f[b]].blue.Keys)
  {
    MainParentCorr(g, h, f, n, k, b);
    DiffCorr(g, h, f, n, k, b);
    var mp, s, t := g[b].mainParent, g[b].Diff(), h[f[b]].Diff();
    DiffFacts(g, k, b);
    DiffFacts(h, k, f[b]);
    forall x | Named(f, x) ensures x in g[b].blue.Keys <==> f[x] in h[f[b]].blue.Keys {
      CorrAt(f, s, t, x);
      if x in s {
        DiffIsBelow(g, k, b, x);
        BlueForCorr(g, h, f, n, k, mp, x);
        ColourFacts(g, k, b, x);
        ColourFacts(h, k, f[b], f[x]);
      }
    }
  }

  lemma DiffIsBelow(g: Graph, k: nat, b: Id, x: Id)
    requires Wf(g, k) && b in g && b != 0 && x in g[b].Diff()
    ensures x in g && x < b
  {
    ConeSplit(g, k, b);
    assert x in Cone(g, b) && x != b;
    ConeBounds(g, b);
  }

  lemma BlueNumCorr(g: Graph, h: Graph, f: Renaming, n: nat, k: nat, b: Id)
    requires Twins(g, h, f) && AlikeBelow(g, h, f, n) && Wf(g, k) && Wf(h, k) && b in g && b != 0 && b <= n
    requires f[b] in h && Corr(f, g[b].blue.Keys, h[f[b]].blue.Keys)
    ensures h[f[b]].blueNum == g[b].blueNum
  {
    MainParentCorr(g, h, f, n, k, b);
    MainParentFacts(g, k, b);
    MainParentFacts(h, k, f[b]);
    assert Alike(g, h, f, g[b].mainParent);
    CorrSize(f, g[b].blue.Keys, h[f[b]].blue.Keys);
    assert |g[b].blue| == |g[b].blue.Keys| && |h[f[b]].blue| == |h[f[b]].blue.Keys|;
  }

  lemma {:induction false} AllAlike(g: Graph, h: Graph, f: Renaming, n: nat, k: nat)
    requires Twins(g, h, f) && Wf(g, k) && Wf(h, k)
    ensures AlikeBelow(g, h, f, n)
  {
    if n > 0 {
      AllAlike(g, h, f, n - 1, k);
      var b := n - 1;
      if b in g {
        NextIsAlike(g, h, f, k, b);
      }
    }
  }

  lemma NextIsAlike(g: Graph, h: Graph, f: Renaming, k: nat, b: Id)
    requires Twins(g, h, f) && AlikeBelow(g, h, f, b) && Wf(g, k) && Wf(h, k) && b in g
    ensures Alike(g, h, f, b)
  {
    GenesisIsTwin(g, h, f, b);
    if b == 0 {
      assert Derived(g, k, 0) && Derived(h, k, 0);
    } else {
      LayerCorr(g, h, f, b, k, b);
      MainParentCorr(g, h, f, b, k, b);
      DiffCorr(g, h, f, b, k, b);
      BlueCorr(g, h, f, b, k, b);
      BlueNumCorr(g, h, f, b, k, b);
    }
  }

  lemma DiffOrdCorr(g: Graph, h: Graph, f: Renaming, k: nat, b: Id)
    requires Twins(g, h, f) && AlikeBelow(g, h, f, MAX_ID) && Wf(g, k) && Wf(h, k) && b in g && b != 0
    ensures f[b] in h && f[b] != 0 && Elems(DiffOrd(g, k, b)) <= f.Keys
    ensures Renamed(f, DiffOrd(g, k, b)) == DiffOrd(h, k, f[b])
  {
    GenesisIsTwin(g, h, f, b);
    TwinOf(g, h, f, b);
    assert Alike(g, h, f, b);
    DiffFacts(g, k, b);
    DiffFacts(h, k, f[b]);
    var blue, diff := g[b].blue.Keys, g[b].Diff();
    var blue', diff' := h[f[b]].blue.Keys, h[f[b]].Diff();
    assert 0 !in diff by {
      GenesisInCone(g, g[b].mainParent);
    }
    assert Setting(g, h, f, MAX_ID, blue, blue', diff, diff');
    ArrangeCorr(g, h, f, MAX_ID, blue, blue', diff, diff', g[b].mainParent, g[b].parents, h[f[b]].parents);
    var roots := Arrange(g, g[b].mainParent, blue, g[b].parents, diff);
    EmitAllCorr(g, h, f, MAX_ID, blue, blue', diff, diff', [], roots, MAX_ID, MAX_ID);
    assert Renamed(f, []) == [];
  }

  /** The orders of corresponding blocks correspond. */
  lemma {:induction false} OrderCorr(g: Graph, h: Graph, f: Renaming, k: nat, b: Id)
    requires Twins(g, h, f) && AlikeBelow(g, h, f, MAX_ID) && Wf(g, k) && Wf(h, k) && b in g
    ensures f[b] in h && Elems(Order(g, k, b)) <= f.Keys && Renamed(f, Order(g, k, b)) == Order(h, k, f[b])
    decreases b
  {
    GenesisIsTwin(g, h, f, b);
    RenamedOne(f, b);
    if b != 0 {
      var mp := g[b].mainParent;
      assert Alike(g, h, f, b);
      OrderCorr(g, h, f, k, mp);
      DiffOrdCorr(g, h, f, k, b);
      RenamedConcat(f, Order(g, k, mp), DiffOrd(g, k, b));
      RenamedConcat(f, Order(g, k, mp) + DiffOrd(g, k, b), [b]);
    }
  }

  // ---------------------------------------------------------------- nodes with the same blocks

  ghost function ParentHashes(g: Graph, x: Id): set<nat>
    requires x in g
  {
    set p | p in g[x].parents :: g[p].hash
  }

  /** What a block says about itself, wherever it arrives. */
  ghost predicate SameBlock(g: Graph, x: Id, h: Graph, y: Id)
    requires x in g && y in h
  {
    g[x].hash == h[y].hash && g[x].priority == h[y].priority && ParentHashes(g, x) == ParentHashes(h, y)
  }

  ghost predicate Shared(g: Graph, x: Id, h: Graph)
    requires x in g
  {
    exists y :: y in h && SameBlock(g, x, h, y)
  }

  ghost predicate SameBlocks(g: Graph, h: Graph)
  {
    && (forall x {:trigger Shared(g, x, h)} :: x in g ==> Shared(g, x, h))
    && (forall y {:trigger Shared(h, y, g)} :: y in h ==> Shared(h, y, g))
  }

  ghost function Counterpart(g: Graph, h: Graph, x: Id): (y: Id)
    requires x in g && Shared(g, x, h)
    ensures y in h && SameBlock(g, x, h, y)
  {
    var y :| y in h && SameBlock(g, x, h, y);
    y
  }

  ghost function RenamingOf(g: Graph, h: Graph): (f: Renaming)
    requires SameBlocks(g, h)
    ensures f.Keys == g.Keys
  {
    map x | x in g :: assert Shared(g, x, h); Counterpart(g, h, x)
  }

  lemma RenamingAt(g: Graph, h: Graph, f: Renaming, x: Id)
    requires SameBlocks(g, h) && f == RenamingOf(g, h) && x in g
    ensures f[x] in h && SameBlock(g, x, h, f[x])
  {
    assert Shared(g, x, h);
  }

  lemma ParentByHash(g: Graph, x: Id, p: Id)
    requires DistinctHashes(g) && x in g && p in g
    ensures p in g[x].parents <==> g[p].hash in ParentHashes(g, x)
  {
    if g[p].hash in ParentHashes(g, x) {
      var q :| q in g[x].parents && g[q].hash == g[p].hash;
      assert SameHash(g, p, q);
    }
  }

  lemma RenamingIsInjective(g: Graph, h: Graph, f: Renaming)
    requires DistinctHashes(g) && SameBlocks(g, h) && f == RenamingOf(g, h)
    ensures Injective(f)
  {
    forall x, y | Named(f, x) && Named(f, y) && f[x] == f[y] ensures x == y {
      RenamingAt(g, h, f, x);
      RenamingAt(g, h, f, y);
      assert SameHash(g, x, y);
    }
  }

  lemma RenamingIsOnto(g: Graph, h: Graph, f: Renaming)
    requires DistinctHashes(h) && SameBlocks(g, h) && f == RenamingOf(g, h)
    ensures f.Values == h.Keys
  {
    forall x | x in f ensures f[x] in h {
      RenamingAt(g, h, f, x);
    }
    forall y | y in h ensures y in f.Values {
      assert Shared(h, y, g);
      var x := Counterpart(h, g, y);
      RenamingAt(g, h, f, x);
      assert SameHash(h, f[x], y);
    }
  }

  lemma RenamingIsTwins(g: Graph, h: Graph, f: Renaming)
    requires DistinctHashes(g) && DistinctHashes(h) && SameBlocks(g, h) && f == RenamingOf(g, h)
    ensures Twins(g, h, f)
  {
    RenamingIsInjective(g, h, f);
    RenamingIsOnto(g, h, f);
    forall x | x in f ensures Twin(g, h, f, x) {
      RenamingAt(g, h, f, x);
      forall p | Named(f, p) ensures p in g[x].parents <==> f[p] in h[f[x]].parents {
        RenamingAt(g, h, f, p);
        ParentByHash(g, x, p);
        ParentByHash(h, f[x], f[p]);
      }
    }
  }

  ghost function Hashes(g: Graph, s: seq<Id>): seq<nat>
    requires Elems(s) <= g.Keys
  {
    seq(|s|, i requires 0 <= i < |s| => assert s[i] in Elems(s); g[s[i]].hash)
  }

  lemma RenamedHashes(g: Graph, h: Graph, f: Renaming, s: seq<Id>)
    requires Twins(g, h, f) && Elems(s) <= f.Keys
    ensures Elems(Renamed(f, s)) <= h.Keys && Hashes(g, s) == Hashes(h, Renamed(f, s))
  {
    var t := Renamed(f, s);
    forall i | 0 <= i < |s| ensures s[i] in g && t[i] in h && g[s[i]].hash == h[t[i]].hash {
      assert s[i] in Elems(s);
      TwinOf(g, h, f, s[i]);
    }
    assert forall y :: y in t ==> exists i :: 0 <= i < |s| && t[i] == y;
  }

  /** Two nodes with the same blocks have the same main tip and the same order, told by hashes. */
  lemma NodesAgree(m: Mem, n: Mem, k: nat)
    requires MemOk(m, k) && MemOk(n, k) && m.total > 0 && n.total > 0 && SameBlocks(m.g, n.g)
    ensures m.mainTip in m.g && n.mainTip in n.g && m.g[m.mainTip].hash == n.g[n.mainTip].hash
    ensures Elems(Line(m, k)) <= m.g.Keys && Elems(Line(n, k)) <= n.g.Keys
    ensures Hashes(m.g, Line(m, k)) == Hashes(n.g, Line(n, k))
  {
    var f := RenamingOf(m.g, n.g);
    OrdersAgree(m.g, n.g, k, f, m.mainTip, n.mainTip);
  }

  lemma OrdersAgree(g: Graph, h: Graph, k: nat, f: Renaming, t: Id, u: Id)
    requires Wf(g, k) && Wf(h, k) && SameBlocks(g, h) && f == RenamingOf(g, h)
    requires IsBluest(g, g.Keys, t) && IsBluest(h, h.Keys, u)
    ensures f[t] == u && g[t].hash == h[u].hash
    ensures Elems(Order(g, k, t)) <= g.Keys && Elems(Order(h, k, u)) <= h.Keys
    ensures Renamed(f, Order(g, k, t)) == Order(h, k, u) && Hashes(g, Order(g, k, t)) == Hashes(h, Order(h, k, u))
  {
    RenamingIsTwins(g, h, f);
    AllAlike(g, h, f, MAX_ID, k);
    TwinOf(g, h, f, t);
    assert Corr(f, g.Keys, h.Keys) by {
      forall x | Named(f, x) ensures f[x] in h {
        TwinOf(g, h, f, x);
      }
    }
    BluestCorr(g, h, f, MAX_ID, g.Keys, h.Keys, t);
    BluestUnique(h, h.Keys, f[t], u);
    OrderCorr(g, h, f, k, t);
    RenamedHashes(g, h, f, Order(g, k, t));
  }

  /** What two nodes have derived for the same block. */
  ghost predicate BlockAgrees(g: Graph, h: Graph, x: Id, y: Id)
    requires x in g && y in h && g[x].Diff() <= g.Keys && h[y].Diff() <= h.Keys
  {
    && g[x].layer == h[y].layer && g[x].height == h[y].height && g[x].blueNum == h[y].blueNum
    && (x == 0 <==> y == 0) && (x != 0 ==> g[g[x].mainParent].hash == h[h[y].mainParent].hash)
    && (set b | b in g[x].blue :: g[b].hash) == (set b | b in h[y].blue :: h[b].hash)
    && (set b | b in g[x].Diff() :: g[b].hash) == (set b | b in h[y].Diff() :: h[b].hash)
  }

  /** Main parent, layer, height, blue number and colours do not depend on the order of arrival. */
  lemma DerivedAgrees(g: Graph, h: Graph, k: nat, x: Id, y: Id)
    requires Wf(g, k) && Wf(h, k) && SameBlocks(g, h) && x in g && y in h && g[x].hash == h[y].hash
    ensures g[x].Diff() <= g.Keys && h[y].Diff() <= h.Keys && BlockAgrees(g, h, x, y)
  {
    var f := RenamingOf(g, h);
    RenamingIsTwins(g, h, f);
    AllAlike(g, h, f, MAX_ID, k);
    assert f[x] == y by {
      RenamingAt(g, h, f, x);
      assert SameHash(h, f[x], y);
    }
    GenesisIsTwin(g, h, f, x);
    assert Alike(g, h, f, x);
    DiffFacts(g, k, x);
    DiffFacts(h, k, y);
    HashesCorr(g, h, f, g[x].blue.Keys, h[y].blue.Keys);
    HashesCorr(g, h, f, g[x].Diff(), h[y].Diff());
    if x != 0 {
      TwinOf(g, h, f, g[x].mainParent);
    }
  }

  lemma HashesCorr(g: Graph, h: Graph, f: Renaming, s: set<Id>, t: set<Id>)
    requires Twins(g, h, f) && s <= g.Keys && t <= h.Keys && Corr(f, s, t)
    ensures (set b | b in s :: g[b].hash) == (set b | b in t :: h[b].hash)
  {
    forall b | b in s ensures f[b] in t && h[f[b]].hash == g[b].hash {
      CorrAt(f, s, t, b);
      TwinOf(g, h, f, b);
    }
    forall y | y in t ensures exists b :: b in s && g[b].hash == h[y].hash {
      var b := Back(f, s, t, y);
      TwinOf(g, h, f, b);
    }
  }

  /** ... and neither does a block's number in the order. */
  lemma NumbersAgree(m: Mem, n: Mem, k: nat, x: Id, y: Id)
    requires MemOk(m, k) && MemOk(n, k) && m.total > 0 && n.total > 0 && SameBlocks(m.g, n.g)
    requires x in m.g && y in n.g && m.g[x].hash == n.g[y].hash
    ensures m.orders[x] == n.orders[y] && (x in m.diffAnticone <==> y in n.diffAnticone)
  {
    var f := RenamingOf(m.g, n.g);
    RenamingIsTwins(m.g, n.g, f);
    OrdersAgree(m.g, n.g, k, f, m.mainTip, n.mainTip);
    assert f[x] == y by {
      RenamingAt(m.g, n.g, f, x);
      assert SameHash(n.g, f[x], y);
    }
    UnorderedIffOutside(m, k, x);
    UnorderedIffOutside(n, k, y);
    SamePosition(f, Line(m, k), m.orders, n.orders, x, y);
  }

  lemma SamePosition(f: Renaming, line: seq<Id>, orders: map<Id, nat>, orders': map<Id, nat>, x: Id, y: Id)
    requires Injective(f) && Elems(line) <= f.Keys && x in f && f[x] == y && x in orders && y in orders'
    requires Numbering(line, orders) && Numbering(Renamed(f, line), orders')
    ensures orders[x] == orders'[y]
  {
    var line' := Renamed(f, line);
    RenamedMember(f, line, x);
    if x in line {
      var i :| 0 <= i < |line| && line[i] == x;
      assert line'[i] == y;
    }
  }

  // ---------------------------------------------------------------- blocks as sets

  /** A block as it is sent around: its hash, its priority and the hashes of its parents. */
  datatype Sig = Sig(hash: nat, priority: int, parents: set<nat>)

  ghost function SigAt(g: Graph, x: Id): Sig
    requires x in g
  {
    Sig(g[x].hash, g[x].priority, ParentHashes(g, x))
  }

  ghost function Blocks(g: Graph): set<Sig> {
    set x | x in g :: SigAt(g, x)
  }

  lemma SameSigs(g: Graph, h: Graph, x: Id)
    requires Within(g, h) && x in g
    ensures x in h && SigAt(g, x) == SigAt(h, x)
  {
    assert forall p :: p in g[x].parents ==> g[p].hash == h[p].hash;
  }

  lemma BlocksGrow(g: Graph, h: Graph)
    requires Within(g, h)
    ensures Blocks(g) <= Blocks(h)
  {
    forall x | x in g ensures SigAt(g, x) in Blocks(h) {
      SameSigs(g, h, x);
    }
  }

  lemma OneMoreBlock(g: Graph, h: Graph, b: Id)
    requires Within(g, h) && b !in g && h.Keys == g.Keys + {b}
    ensures Blocks(h) == Blocks(g) + {SigAt(h, b)}
  {
    BlocksGrow(g, h);
    forall x | x in h ensures SigAt(h, x) in Blocks(g) + {SigAt(h, b)} {
      if x != b {
        SameSigs(g, h, x);
      }
    }
  }

  lemma EqualSetsAreSameBlocks(g: Graph, h: Graph)
    requires Blocks(g) == Blocks(h)
    ensures SameBlocks(g, h)
  {
    forall x | x in g ensures Shared(g, x, h) {
      assert SigAt(g, x) in Blocks(h);
      var y :| y in h && SigAt(h, y) == SigAt(g, x);
      assert SameBlock(g, x, h, y);
    }
    forall y | y in h ensures Shared(h, y, g) {
      assert SigAt(h, y) in Blocks(g);
      var x :| x in g && SigAt(g, x) == SigAt(h, y);
      assert SameBlock(h, y, g, x);
    }
  }
}
