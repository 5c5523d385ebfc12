/** The order inside one diff-anticone.

    The code keeps a work list, pushes a block back behind its unordered
    parents and skips blocks met again.  The reference is a depth-first
    post-order (`Emit`), and the work-list loop is proved to compute it. */
module DiffOrder {
  import opened Dag
  import opened Blue

  /** The named last block first if it is asked for, then the blue blocks, then the red. */
  ghost function Arrange(g: Graph, last: Id, blue: set<Id>, toSort: set<Id>, diff: set<Id>): (r: seq<Id>)
    requires DistinctHashes(g) && diff <= g.Keys
    ensures forall x :: x in r <==> x in toSort && x in diff
    ensures forall i :: 0 <= i < |r| ==> r[i] in toSort && r[i] in diff
  {
    var rest := (toSort - {last}) * diff;
    (if last in diff && last in toSort then [last] else [])
      + Sorted(g, rest * blue) + Sorted(g, rest - blue)
  }

  lemma ThreeLists(a: seq<Id>, b: seq<Id>, c: seq<Id>, i: nat)
    requires i < |a| + |b| + |c|
    ensures (a + b + c)[i] == if i < |a| then a[i] else if i < |a| + |b| then b[i - |a|] else c[i - |a| - |b|]
  {}

  /** Two blocks of a list, the earlier at `i`: they differ, and unless the earlier one is the named block,
      it is not red before blue, and within a colour it is the bluer one. */
  ghost predicate PairOk(g: Graph, last: Id, blue: set<Id>, r: seq<Id>, i: nat, j: nat)
    requires i < |r| && j < |r| && r[i] in g && r[j] in g
  {
    && r[i] != r[j] && (r[i] != last && r[j] in blue ==> r[i] in blue)
    && (r[i] != last && (r[i] in blue <==> r[j] in blue) ==> Bluer(g[r[i]], g[r[j]]))
  }

  lemma ArrangedPair(g: Graph, last: Id, blue: set<Id>, toSort: set<Id>, diff: set<Id>, i: nat, j: nat)
    requires DistinctHashes(g) && diff <= g.Keys && i < j < |Arrange(g, last, blue, toSort, diff)|
    ensures PairOk(g, last, blue, Arrange(g, last, blue, toSort, diff), i, j)
  {
    var rest := (toSort - {last}) * diff;
    var first := if last in diff && last in toSort then [last] else [];
    var blues, reds := Sorted(g, rest * blue), Sorted(g, rest - blue);
    SortedIsSorted(g, rest * blue);
    SortedIsSorted(g, rest - blue);
    ThreeLists(first, blues, reds, i);
    ThreeLists(first, blues, reds, j);
  }

  /** Everything asked for is listed once, the named block first; of the others no red one stands before
      a blue one, and within a colour the earlier one is bluer. */
  lemma ArrangeIs(g: Graph, last: Id, blue: set<Id>, toSort: set<Id>, diff: set<Id>)
    requires DistinctHashes(g) && diff <= g.Keys
    ensures var r := Arrange(g, last, blue, toSort, diff);
      && Elems(r) == toSort * diff && (last in toSort && last in diff ==> |r| > 0 && r[0] == last)
      && forall i, j {:trigger PairOk(g, last, blue, r, i, j)} ::
           0 <= i < j < |r| ==> PairOk(g, last, blue, r, i, j)
  {
    var r := Arrange(g, last, blue, toSort, diff);
    forall i, j | 0 <= i < j < |r| ensures PairOk(g, last, blue, r, i, j) {
      ArrangedPair(g, last, blue, toSort, diff, i, j);
    }
    ElemsAre(r, toSort * diff);
  }

  /** The parents of `b` inside the diff-anticone that are still to be ordered. */
  ghost function Waiting(g: Graph, diff: set<Id>, done: seq<Id>, b: Id): set<Id>
    requires b in g
  {
    g[b].parents * diff - Elems(done)
  }

  ghost predicate Ready(g: Graph, diff: set<Id>, done: seq<Id>, b: Id)
    requires b in g
  {
    forall p :: p in g[b].parents && p in diff ==> p in done
  }

  lemma ReadyIffNoneWaiting(g: Graph, diff: set<Id>, done: seq<Id>, b: Id)
    requires b in g
    ensures Ready(g, diff, done, b) <==> Waiting(g, diff, done, b) == {}
  {
    assert forall p :: p in Waiting(g, diff, done, b) <==> p in g[b].parents && p in diff && p !in done;
  }

  ghost function Pending(g: Graph, blue: set<Id>, diff: set<Id>, done: seq<Id>, b: Id): (r: seq<Id>)
    requires DistinctHashes(g) && diff <= g.Keys && b in g
    ensures forall x :: x in r <==> x in Waiting(g, diff, done, b)
    ensures Inside(diff, r, b)
  {
    Arrange(g, g[b].mainParent, blue, Waiting(g, diff, done, b), diff)
  }

  ghost predicate Inside(diff: set<Id>, xs: seq<Id>, bound: nat)
  {
    forall i :: 0 <= i < |xs| ==> xs[i] in diff && xs[i] < bound
  }

  lemma InsideSplit(diff: set<Id>, xs: seq<Id>, bound: nat)
    requires xs != [] && Inside(diff, xs, bound)
    ensures xs[0] in diff && Inside(diff, xs[1..], bound) && xs == [xs[0]] + xs[1..]
  {}

  /** Depth-first: first the waiting parents, then the block itself. */
  ghost function Emit(g: Graph, blue: set<Id>, diff: set<Id>, done: seq<Id>, b: Id): seq<Id>
    requires DistinctHashes(g) && diff <= g.Keys && b in diff
    decreases b
  {
    if b in done then done
    else EmitAll(g, blue, diff, done, Pending(g, blue, diff, done, b), b) + [b]
  }

  ghost function EmitAll(g: Graph, blue: set<Id>, diff: set<Id>, done: seq<Id>, xs: seq<Id>, bound: nat): seq<Id>
    requires DistinctHashes(g) && diff <= g.Keys
    requires Inside(diff, xs, bound)
    decreases bound, |xs|
  {
    if xs == [] then done
    else
      EmitAll(g, blue, diff, Emit(g, blue, diff, done, xs[0]), xs[1..], bound)
  }

  /** The order a block with these parents gives to its diff-anticone. */
  ghost function DiffSeq(g: Graph, parents: set<Id>, mainParent: Id, blue: set<Id>, diff: set<Id>): seq<Id>
    requires DistinctHashes(g) && diff <= g.Keys
  {
    EmitAll(g, blue, diff, [], Arrange(g, mainParent, blue, parents, diff), MAX_ID)
  }

  // ---------------------------------------------------------------- properties of the reference

  /** Duplicate-free, inside the diff-anticone, every block after its parents there. */
  ghost predicate Topological(g: Graph, diff: set<Id>, s: seq<Id>)
    requires diff <= g.Keys
  {
    s == [] ||
    var t, b := s[..|s| - 1], s[|s| - 1];
    b in diff && b !in t && Ready(g, diff, t, b) && Topological(g, diff, t)
  }

  lemma {:induction false} TopologicalMembers(g: Graph, diff: set<Id>, s: seq<Id>)
    requires diff <= g.Keys && Topological(g, diff, s)
    ensures NoDup(s)
    ensures forall x :: x in s ==> x in diff
    decreases |s|
  {
    if s != [] {
      var t, b := s[..|s| - 1], s[|s| - 1];
      TopologicalMembers(g, diff, t);
      LastAndInit(s);
    }
  }

  /** Whatever a block needs stands before it. */
  lemma {:induction false} TopologicalAt(g: Graph, diff: set<Id>, s: seq<Id>, i: nat)
    requires diff <= g.Keys && Topological(g, diff, s) && i < |s|
    ensures s[i] in diff && Ready(g, diff, s[..i], s[i])
    decreases |s|
  {
    var t := s[..|s| - 1];
    if i < |t| {
      TopologicalAt(g, diff, t, i);
      assert s[..i] == t[..i];
    }
  }

  lemma TopologicalSnoc(g: Graph, diff: set<Id>, s: seq<Id>, b: Id)
    requires diff <= g.Keys && Topological(g, diff, s)
    requires b in diff && b !in s && Ready(g, diff, s, b)
    ensures Topological(g, diff, s + [b])
  {
    assert (s + [b])[..|s|] == s;
  }

  lemma TopologicalHasParents(g: Graph, diff: set<Id>, s: seq<Id>, b: Id, p: Id)
    requires diff <= g.Keys && Topological(g, diff, s)
    requires b in s && b in g && p in g[b].parents && p in diff
    ensures p in s
  {
    var i :| 0 <= i < |s| && s[i] == b;
    TopologicalAt(g, diff, s, i);
    assert p in s[..i];
  }

  lemma {:induction false} EmitProps(g: Graph, blue: set<Id>, diff: set<Id>, done: seq<Id>, b: Id)
    requires DistinctHashes(g) && diff <= g.Keys && b in diff
    requires Topological(g, diff, done)
    ensures var r := Emit(g, blue, diff, done, b);
      Topological(g, diff, r) && done <= r && b in r && (forall x :: x in r && x !in done ==> x <= b)
    decreases b
  {
    if b !in done {
      var ps := Pending(g, blue, diff, done, b);
      EmitAllProps(g, blue, diff, done, ps, b);
      var r := EmitAll(g, blue, diff, done, ps, b);
      assert forall x :: x in Waiting(g, diff, done, b) ==> x in r;
      assert forall x :: x in done ==> x in r;
      TopologicalSnoc(g, diff, r, b);
    }
  }

  lemma {:induction false} EmitAllProps(g: Graph, blue: set<Id>, diff: set<Id>, done: seq<Id>, xs: seq<Id>, bound: nat)
    requires DistinctHashes(g) && diff <= g.Keys
    requires Inside(diff, xs, bound)
    requires Topological(g, diff, done)
    ensures var r := EmitAll(g, blue, diff, done, xs, bound);
      && Topological(g, diff, r) && done <= r
      && (forall x :: x in xs ==> x in r)
      && (forall x :: x in r && x !in done ==> x < bound)
    decreases bound, |xs|
  {
    if xs != [] {
      HeadAndTail(xs);
      EmitProps(g, blue, diff, done, xs[0]);
      var mid := Emit(g, blue, diff, done, xs[0]);
      EmitAllProps(g, blue, diff, mid, xs[1..], bound);
      assert forall x :: x in mid ==> x in EmitAll(g, blue, diff, done, xs, bound);
    }
  }

  /** A topological list that holds `r` holds all of `r`'s cone but for a parent-closed part. */
  lemma {:induction false} ReachedFromRoot(g: Graph, diff: set<Id>, s: seq<Id>, r: Id, x: Id, below: set<Id>)
    requires diff <= g.Keys && Topological(g, diff, s)
    requires r in s && r in diff && x in Cone(g, r) && x !in below
    requires below <= g.Keys && forall y, p :: y in below && p in g[y].parents ==> p in below
    requires forall z :: z in Cone(g, r) ==> z in diff || z in below
    ensures x in s
    decreases r
  {
    if x != r {
      var p :| p in g[r].parents && x in Cone(g, p);
      if p in below {
        ConeLeast(g, p, below);
        assert false;
      }
      ConeOfParent(g, r, p);
      TopologicalHasParents(g, diff, s, r, p);
      ReachedFromRoot(g, diff, s, p, x, below);
    }
  }

  /** What a search for a diff-anticone yields: all of it, and perhaps some of the other parents besides. */
  ghost predicate Found(g: Graph, parents: set<Id>, mainParent: Id, diff: set<Id>)
    requires parents <= g.Keys && mainParent in parents
  {
    && PastOf(g, parents) - Cone(g, mainParent) <= diff
    && diff <= PastOf(g, parents) - Cone(g, mainParent) + (parents - {mainParent})
  }

  /** The order of a diff-anticone is a duplicate-free topological enumeration of all of it. */
  lemma DiffSeqIsTopologicalPermutation(g: Graph, parents: set<Id>, mainParent: Id, blue: set<Id>, diff: set<Id>)
    requires DistinctHashes(g) && parents <= g.Keys && mainParent in parents
    requires Found(g, parents, mainParent, diff)
    ensures diff <= g.Keys
    ensures var s := DiffSeq(g, parents, mainParent, blue, diff); Topological(g, diff, s) && Elems(s) == diff
  {
    PastOfBounds(g, parents);
    var s := DiffSeq(g, parents, mainParent, blue, diff);
    assert Topological(g, diff, s) by {
      EmitAllProps(g, blue, diff, [], Arrange(g, mainParent, blue, parents, diff), MAX_ID);
    }
    TopologicalMembers(g, diff, s);
    forall x | x in diff ensures x in s {
      DiffSeqReaches(g, parents, mainParent, blue, diff, x);
    }
    ElemsAre(s, diff);
  }

  lemma DiffSeqReaches(g: Graph, parents: set<Id>, mainParent: Id, blue: set<Id>, diff: set<Id>, x: Id)
    requires DistinctHashes(g) && parents <= g.Keys && mainParent in parents
    requires Found(g, parents, mainParent, diff) && diff <= g.Keys
    requires x in diff
    ensures x in DiffSeq(g, parents, mainParent, blue, diff)
  {
    var roots := Arrange(g, mainParent, blue, parents, diff);
    var below := Cone(g, mainParent);
    EmitAllProps(g, blue, diff, [], roots, MAX_ID);
    if x in parents {
      assert x in roots;
      return;
    }
    ConeBounds(g, mainParent);
    forall y, p | y in below && p in g[y].parents ensures p in below {
      ConeHasParents(g, mainParent, y, p);
    }
    var r :| r in parents && x in Cone(g, r);
    if r in below {
      ConeTransitive(g, mainParent, r);
      assert false;
    }
    ConeBounds(g, r);
    assert r in roots;
    ReachedFromRoot(g, diff, DiffSeq(g, parents, mainParent, blue, diff), r, x, below);
  }

  // ---------------------------------------------------------------- algebra of the reference

  lemma {:induction false} EmitAllBound(g: Graph, blue: set<Id>, diff: set<Id>, done: seq<Id>, xs: seq<Id>, m: nat,
                                        n: nat)
    requires DistinctHashes(g) && diff <= g.Keys
    requires Inside(diff, xs, m) && Inside(diff, xs, n)
    ensures EmitAll(g, blue, diff, done, xs, m) == EmitAll(g, blue, diff, done, xs, n)
    decreases |xs|
  {
    if xs != [] {
      EmitAllBound(g, blue, diff, Emit(g, blue, diff, done, xs[0]), xs[1..], m, n);
    }
  }

  lemma {:induction false} EmitAllConcat(g: Graph, blue: set<Id>, diff: set<Id>, done: seq<Id>, xs: seq<Id>,
                                         ys: seq<Id>, bound: nat)
    requires DistinctHashes(g) && diff <= g.Keys
    requires Inside(diff, xs, bound)
    requires Inside(diff, ys, bound)
    ensures EmitAll(g, blue, diff, done, xs + ys, bound)
         == EmitAll(g, blue, diff, EmitAll(g, blue, diff, done, xs, bound), ys, bound)
    decreases |xs|
  {
    if xs == [] {
      assert xs + ys == ys;
    } else {
      assert (xs + ys)[1..] == xs[1..] + ys;
      EmitAllConcat(g, blue, diff, Emit(g, blue, diff, done, xs[0]), xs[1..], ys, bound);
    }
  }

  lemma EmitReady(g: Graph, blue: set<Id>, diff: set<Id>, done: seq<Id>, b: Id)
    requires DistinctHashes(g) && diff <= g.Keys && b in diff
    requires b !in done && Ready(g, diff, done, b)
    ensures Emit(g, blue, diff, done, b) == done + [b]
  {
    ReadyIffNoneWaiting(g, diff, done, b);
    HeadIsMember(Pending(g, blue, diff, done, b));
  }

  lemma SkipStep(g: Graph, blue: set<Id>, diff: set<Id>, done: seq<Id>, b: Id, rest: seq<Id>)
    requires DistinctHashes(g) && diff <= g.Keys && b in diff && b in done
    requires Inside(diff, rest, MAX_ID)
    ensures EmitAll(g, blue, diff, done, [b] + rest, MAX_ID) == EmitAll(g, blue, diff, done, rest, MAX_ID)
  {
    assert ([b] + rest)[1..] == rest;
  }

  lemma AppendStep(g: Graph, blue: set<Id>, diff: set<Id>, done: seq<Id>, b: Id, rest: seq<Id>)
    requires DistinctHashes(g) && diff <= g.Keys && b in diff && b !in done
    requires Topological(g, diff, done) && Ready(g, diff, done, b)
    requires Inside(diff, rest, MAX_ID)
    ensures EmitAll(g, blue, diff, done, [b] + rest, MAX_ID) == EmitAll(g, blue, diff, done + [b], rest, MAX_ID)
    ensures Topological(g, diff, done + [b])
  {
    assert ([b] + rest)[1..] == rest;
    EmitReady(g, blue, diff, done, b);
    TopologicalSnoc(g, diff, done, b);
  }

  lemma FewerLeft(diff: set<Id>, done: seq<Id>, b: Id)
    requires b in diff && b !in done
    ensures |diff - Elems(done + [b])| < |diff - Elems(done)|
  {
    ElemsAre(done + [b], Elems(done) + {b});
    assert diff - Elems(done + [b]) == (diff - Elems(done)) - {b};
  }

  /** Pushing a block back behind its waiting parents does not change the outcome. */
  lemma PushBack(g: Graph, blue: set<Id>, diff: set<Id>, done: seq<Id>, b: Id, rest: seq<Id>)
    requires DistinctHashes(g) && diff <= g.Keys && b in diff && b !in done
    requires Topological(g, diff, done)
    requires Inside(diff, rest, MAX_ID)
    ensures Inside(diff, Pending(g, blue, diff, done, b) + ([b] + rest), MAX_ID)
    ensures var ps := Pending(g, blue, diff, done, b);
      EmitAll(g, blue, diff, done, ps + ([b] + rest), MAX_ID) == EmitAll(g, blue, diff, done, [b] + rest, MAX_ID)
  {
    var ps := Pending(g, blue, diff, done, b);
    var tail := [b] + rest;
    assert tail[1..] == rest;
    EmitAllBound(g, blue, diff, done, ps, b, MAX_ID);
    EmitAllProps(g, blue, diff, done, ps, b);
    EmitAllConcat(g, blue, diff, done, ps, tail, MAX_ID);
    var mid := EmitAll(g, blue, diff, done, ps, b);
    assert forall x :: x in done ==> x in mid;
    EmitReady(g, blue, diff, mid, b);
  }

  lemma PendingHead(g: Graph, blue: set<Id>, diff: set<Id>, done: seq<Id>, b: Id)
    requires DistinctHashes(g) && diff <= g.Keys && b in g && Waiting(g, diff, done, b) != {}
    ensures var ps := Pending(g, blue, diff, done, b); ps != [] && ps[0] < b && ps[0] !in done
  {
    var ps := Pending(g, blue, diff, done, b);
    var w :| w in Waiting(g, diff, done, b);
    assert w in ps;
    HeadIsMember(ps);
  }

  // ---------------------------------------------------------------- the code

  method SortBlocks(g: Graph, last: Id, blue: set<Id>, toSort: set<Id>, diff: set<Id>) returns (r: seq<Id>)
    requires DistinctHashes(g) && diff <= g.Keys
    ensures r == Arrange(g, last, blue, toSort, diff)
    ensures Elems(r) == toSort * diff && (last in toSort && last in diff ==> |r| > 0 && r[0] == last)
    ensures forall i, j {:trigger PairOk(g, last, blue, r, i, j)} :: 0 <= i < j < |r| ==> PairOk(g, last, blue, r, i, j)
  {
    if toSort == {} {
      return [];
    }
    var remaining := (toSort - {last}) * diff;
    var blueSet := remaining * blue;
    var blueList := SortPriorityList(g, blueSet);
    var redList := SortPriorityList(g, remaining - blueSet);
    assert remaining - blueSet == remaining - blue;
    r := [];
    if last != MAX_ID && last in diff && last in toSort {
      r := [last];
    }
    r := r + blueList + redList;
    ArrangeIs(g, last, blue, toSort, diff);
  }

  method GetDiffAnticoneOrder(g: Graph, parents: set<Id>, mainParent: Id, blue: set<Id>, diff: set<Id>)
    returns (ordered: seq<Id>)
    requires DistinctHashes(g) && diff <= g.Keys
    ensures ordered == DiffSeq(g, parents, mainParent, blue, diff)
  {
    var toOrder := SortBlocks(g, mainParent, blue, parents, diff);
    ghost var final := EmitAll(g, blue, diff, [], toOrder, MAX_ID);
    ordered := [];
    while toOrder != []
      invariant Topological(g, diff, ordered)
      invariant Inside(diff, toOrder, MAX_ID)
      invariant EmitAll(g, blue, diff, ordered, toOrder, MAX_ID) == final
      decreases |diff - Elems(ordered)|,
        if toOrder != [] && toOrder[0] in ordered then 1 else 0,
        if toOrder == [] then 0 else if toOrder[0] in ordered then |toOrder| else toOrder[0]
    {
      var cur, rest := toOrder[0], toOrder[1..];
      InsideSplit(diff, toOrder, MAX_ID);
      if cur in ordered {
        SkipStep(g, blue, diff, ordered, cur, rest);
        toOrder := rest;
        continue;
      }
      var curParents := g[cur].parents * diff - (set x | x in ordered);
      if curParents != {} {
        PushBack(g, blue, diff, ordered, cur, rest);
        var first := SortBlocks(g, g[cur].mainParent, blue, curParents, diff);
        PendingHead(g, blue, diff, ordered, cur);
        toOrder := first + ([cur] + rest);
        continue;
      }
      ReadyIffNoneWaiting(g, diff, ordered, cur);
      AppendStep(g, blue, diff, ordered, cur, rest);
      FewerLeft(diff, ordered, cur);
      ordered, toOrder := ordered + [cur], rest;
    }
  }

  // ---------------------------------------------------------------- numbering

  /** Position i of `s` carries the number i + 1, in the half its colour selects. */
  ghost predicate Numbered(blue: map<Id, nat>, red: map<Id, nat>, s: seq<Id>)
  {
    && blue.Keys !! red.Keys
    && blue.Keys + red.Keys == Elems(s)
    && (forall i :: 0 <= i < |s| ==> s[i] in blue.Keys + red.Keys)
    && (forall i :: 0 <= i < |s| && s[i] in blue ==> blue[s[i]] == i + 1)
    && (forall i :: 0 <= i < |s| && s[i] in red ==> red[s[i]] == i + 1)
  }

  method UpdateBlockOrder(order: seq<Id>, blueSet: set<Id>, redSet: set<Id>)
    returns (blue: map<Id, nat>, red: map<Id, nat>)
    requires NoDup(order) && Elems(order) == blueSet + redSet && blueSet !! redSet
    ensures blue.Keys == blueSet && red.Keys == redSet && Numbered(blue, red, order)
  {
    blue, red := map[], map[];
    for i := 0 to |order|
      invariant blue.Keys == blueSet * Elems(order[..i]) && red.Keys == redSet * Elems(order[..i])
      invariant forall j :: 0 <= j < i && order[j] in blue ==> blue[order[j]] == j + 1
      invariant forall j :: 0 <= j < i && order[j] in red ==> red[order[j]] == j + 1
    {
      assert order[..i + 1] == order[..i] + [order[i]];
      assert Elems(order[..i + 1]) == Elems(order[..i]) + {order[i]};
      assert order[i] in Elems(order);
      if order[i] in blueSet {
        blue := blue[order[i] := i + 1];
      } else {
        red := red[order[i] := i + 1];
      }
    }
    assert order[..|order|] == order;
    assert forall i :: 0 <= i < |order| ==> order[i] in Elems(order);
  }

  // ---------------------------------------------------------------- frame

  lemma ArrangeFrame(g: Graph, h: Graph, last: Id, blue: set<Id>, toSort: set<Id>, diff: set<Id>)
    requires DistinctHashes(g) && DistinctHashes(h) && Within(g, h) && diff <= g.Keys
    ensures Arrange(g, last, blue, toSort, diff) == Arrange(h, last, blue, toSort, diff)
  {
    var rest := (toSort - {last}) * diff;
    SortedFrame(g, h, rest * blue);
    SortedFrame(g, h, rest - blue);
  }

  lemma {:induction false} EmitFrame(g: Graph, h: Graph, blue: set<Id>, diff: set<Id>, done: seq<Id>, b: Id)
    requires DistinctHashes(g) && DistinctHashes(h) && Within(g, h) && diff <= g.Keys && b in diff
    ensures Emit(g, blue, diff, done, b) == Emit(h, blue, diff, done, b)
    decreases b
  {
    if b !in done {
      ArrangeFrame(g, h, g[b].mainParent, blue, Waiting(g, diff, done, b), diff);
      EmitAllFrame(g, h, blue, diff, done, Pending(g, blue, diff, done, b), b);
    }
  }

  lemma {:induction false} EmitAllFrame(g: Graph, h: Graph, blue: set<Id>, diff: set<Id>, done: seq<Id>, xs: seq<Id>,
                                        bound: nat)
    requires DistinctHashes(g) && DistinctHashes(h) && Within(g, h) && diff <= g.Keys
    requires Inside(diff, xs, bound)
    ensures EmitAll(g, blue, diff, done, xs, bound) == EmitAll(h, blue, diff, done, xs, bound)
    decreases bound, |xs|
  {
    if xs != [] {
      EmitFrame(g, h, blue, diff, done, xs[0]);
      EmitAllFrame(g, h, blue, diff, Emit(g, blue, diff, done, xs[0]), xs[1..], bound);
    }
  }

  lemma DiffSeqFrame(g: Graph, h: Graph, parents: set<Id>, mainParent: Id, blue: set<Id>, diff: set<Id>)
    requires DistinctHashes(g) && DistinctHashes(h) && Within(g, h) && diff <= g.Keys
    ensures DiffSeq(g, parents, mainParent, blue, diff) == DiffSeq(h, parents, mainParent, blue, diff)
  {
    ArrangeFrame(g, h, mainParent, blue, parents, diff);
    var roots := Arrange(g, mainParent, blue, parents, diff);
    EmitAllFrame(g, h, blue, diff, [], roots, MAX_ID);
  }
}
