/** Who stands before whom in a diff-anticone: the post-order treats the parents of a block one after the
    other, and what is reached from an earlier one comes before what is reached from later ones only. */
module Precedence {
  import opened Dag
  import opened Blue
  import opened DiffOrder

  /** `a` is to be treated before `b`: the named block first, then the blue before the red, then the bluer. */
  ghost predicate ComesFirst(g: Graph, last: Id, blue: set<Id>, a: Id, b: Id)
    requires a in g && b in g
  {
    && b != last
    && (a == last || (a in blue && b !in blue) || ((a in blue <==> b in blue) && Bluer(g[a], g[b])))
  }

  /** Where two blocks stand in an arranged list. */
  lemma ArrangedAt(g: Graph, last: Id, blue: set<Id>, toSort: set<Id>, diff: set<Id>, a: Id, b: Id)
    returns (i: nat, j: nat)
    requires DistinctHashes(g) && diff <= g.Keys && a in toSort * diff && b in toSort * diff
    requires ComesFirst(g, last, blue, a, b)
    ensures var r := Arrange(g, last, blue, toSort, diff); i < j < |r| && r[i] == a && r[j] == b
  {
    var r := Arrange(g, last, blue, toSort, diff);
    i :| 0 <= i < |r| && r[i] == a;
    j :| 0 <= j < |r| && r[j] == b;
    if j < i {
      ArrangedPair(g, last, blue, toSort, diff, j, i);
      assert false;
    }
  }

  /** `x` stands before `y`. */
  ghost predicate Before(s: seq<Id>, x: Id, y: Id) {
    exists i, j :: 0 <= i < j < |s| && s[i] == x && s[j] == y
  }

  lemma BeforeInLonger(low: seq<Id>, s: seq<Id>, x: Id, y: Id)
    requires low <= s && x in low && y !in low && y in s
    ensures Before(s, x, y)
  {
    var i :| 0 <= i < |low| && low[i] == x;
    var j :| 0 <= j < |s| && s[j] == y;
    assert forall t :: 0 <= t < |low| ==> s[t] == low[t] && s[t] != y;
    assert s[i] == x && |low| <= j;
  }

  /** Only blocks below the listed ones are added. */
  ghost predicate AddsBelow(g: Graph, done: seq<Id>, xs: seq<Id>, r: seq<Id>) {
    forall z :: z in r && z !in done ==> exists i :: 0 <= i < |xs| && xs[i] in g && z in Cone(g, xs[i])
  }

  lemma {:induction false} EmitAddsBelow(g: Graph, blue: set<Id>, diff: set<Id>, done: seq<Id>, b: Id)
    requires DistinctHashes(g) && diff <= g.Keys && b in diff
    ensures forall z :: z in Emit(g, blue, diff, done, b) && z !in done ==> z in Cone(g, b)
    decreases b
  {
    ConeBounds(g, b);
    if b !in done {
      var ps := Pending(g, blue, diff, done, b);
      EmitAllAddsBelow(g, blue, diff, done, ps, b);
      forall z | z in EmitAll(g, blue, diff, done, ps, b) && z !in done ensures z in Cone(g, b) {
        var i :| 0 <= i < |ps| && ps[i] in g && z in Cone(g, ps[i]);
        assert ps[i] in ps;
        ConeOfParent(g, b, ps[i]);
      }
    }
  }

  lemma {:induction false} EmitAllAddsBelow(g: Graph, blue: set<Id>, diff: set<Id>, done: seq<Id>, xs: seq<Id>,
                                            bound: nat)
    requires DistinctHashes(g) && diff <= g.Keys && Inside(diff, xs, bound)
    ensures AddsBelow(g, done, xs, EmitAll(g, blue, diff, done, xs, bound))
    decreases bound, |xs|
  {
    if xs != [] {
      var mid, tail := Emit(g, blue, diff, done, xs[0]), xs[1..];
      EmitAddsBelow(g, blue, diff, done, xs[0]);
      EmitAllAddsBelow(g, blue, diff, mid, tail, bound);
      forall z | z in EmitAll(g, blue, diff, done, xs, bound) && z !in done
        ensures exists i :: 0 <= i < |xs| && xs[i] in g && z in Cone(g, xs[i])
      {
        if z in mid {
          assert z in Cone(g, xs[0]);
        } else {
          var i :| 0 <= i < |tail| && tail[i] in g && z in Cone(g, tail[i]);
          assert xs[i + 1] == tail[i];
        }
      }
    }
  }

  /** What a list up to `i` brings in stands before what is reached from later entries only. */
  lemma EarlierEntryFirst(g: Graph, blue: set<Id>, diff: set<Id>, done: seq<Id>, xs: seq<Id>, bound: nat, i: nat,
                          x: Id, y: Id)
    requires DistinctHashes(g) && diff <= g.Keys && Inside(diff, xs, bound) && Topological(g, diff, done)
    requires i < |xs| && Inside(diff, xs[..i + 1], bound) && x in EmitAll(g, blue, diff, done, xs[..i + 1], bound)
    requires y in EmitAll(g, blue, diff, done, xs, bound) && y !in done
    requires forall j :: 0 <= j <= i ==> xs[j] in g && y !in Cone(g, xs[j])
    ensures Before(EmitAll(g, blue, diff, done, xs, bound), x, y)
  {
    var low, high := xs[..i + 1], xs[i + 1..];
    var mid, all := EmitAll(g, blue, diff, done, low, bound), EmitAll(g, blue, diff, done, xs, bound);
    assert y !in mid by {
      EmitAllAddsBelow(g, blue, diff, done, low, bound);
    }
    assert mid <= all by {
      assert xs == low + high;
      EmitAllConcat(g, blue, diff, done, low, high, bound);
      EmitAllProps(g, blue, diff, done, low, bound);
      EmitAllProps(g, blue, diff, mid, high, bound);
    }
    BeforeInLonger(mid, all, x, y);
  }

  /** Of two listed blocks the earlier one comes first, unless the later one is reached from
      one that is listed before it. */
  lemma ListedInOrder(g: Graph, blue: set<Id>, diff: set<Id>, done: seq<Id>, xs: seq<Id>, bound: nat, i: nat, j: nat)
    requires DistinctHashes(g) && diff <= g.Keys && Inside(diff, xs, bound) && Topological(g, diff, done)
    requires i < j < |xs| && xs[j] !in done
    requires forall t :: 0 <= t < j ==> xs[t] in g && xs[j] !in Cone(g, xs[t])
    ensures Before(EmitAll(g, blue, diff, done, xs, bound), xs[i], xs[j])
  {
    var low := xs[..i + 1];
    assert low[i] == xs[i];
    EmitAllProps(g, blue, diff, done, low, bound);
    EmitAllProps(g, blue, diff, done, xs, bound);
    EarlierEntryFirst(g, blue, diff, done, xs, bound, i, xs[i], xs[j]);
  }

  /** Two parents in the diff-anticone stand as they are to be treated, if no other parent reaches the later one. */
  lemma ParentsInOrder(g: Graph, parents: set<Id>, mainParent: Id, blue: set<Id>, diff: set<Id>, p: Id, q: Id)
    requires DistinctHashes(g) && diff <= g.Keys && p in parents * diff && q in parents * diff
    requires ComesFirst(g, mainParent, blue, p, q)
    requires forall r :: r in parents && r in diff && r != q ==> q !in Cone(g, r)
    ensures Before(DiffSeq(g, parents, mainParent, blue, diff), p, q)
  {
    var roots := Arrange(g, mainParent, blue, parents, diff);
    var i, j := ArrangedAt(g, mainParent, blue, parents, diff, p, q);
    ArrangeIs(g, mainParent, blue, parents, diff);
    forall t | 0 <= t < j ensures roots[t] in g && q !in Cone(g, roots[t]) {
      assert PairOk(g, mainParent, blue, roots, t, j);
    }
    ListedInOrder(g, blue, diff, [], roots, MAX_ID, i, j);
  }

  /** `p` and `q` are parents of `x` with `p` to be treated first, and nothing but `x` leads to `q`. */
  ghost predicate OnlyThrough(g: Graph, blue: set<Id>, diff: set<Id>, x: Id, p: Id, q: Id)
    requires diff <= g.Keys
  {
    && x in diff && p in g[x].parents * diff && q in g[x].parents * diff
    && ComesFirst(g, g[x].mainParent, blue, p, q)
    && (forall r :: r in g[x].parents && r in diff && r != q ==> q !in Cone(g, r))
    && (forall c :: c in diff && q in g[c].parents ==> c == x)
  }

  lemma BeforeStays(s: seq<Id>, t: seq<Id>, x: Id, y: Id)
    requires s <= t && Before(s, x, y)
    ensures Before(t, x, y)
  {
    var i, j :| 0 <= i < j < |s| && s[i] == x && s[j] == y;
    assert t[i] == x && t[j] == y;
  }

  /** When `x` is treated, its parents are treated in their order. */
  lemma TreatedInOrder(g: Graph, blue: set<Id>, diff: set<Id>, done: seq<Id>, x: Id, p: Id, q: Id)
    requires DistinctHashes(g) && diff <= g.Keys && OnlyThrough(g, blue, diff, x, p, q)
    requires Topological(g, diff, done) && x !in done && q !in done
    ensures Before(Emit(g, blue, diff, done, x), p, q)
  {
    var ps, waiting := Pending(g, blue, diff, done, x), Waiting(g, diff, done, x);
    var r := EmitAll(g, blue, diff, done, ps, x);
    EmitAllProps(g, blue, diff, done, ps, x);
    if p in done {
      BeforeInLonger(done, r, p, q);
    } else {
      var i, j := ArrangedAt(g, g[x].mainParent, blue, waiting, diff, p, q);
      ArrangeIs(g, g[x].mainParent, blue, waiting, diff);
      forall t | 0 <= t < j ensures ps[t] in g && q !in Cone(g, ps[t]) {
        assert PairOk(g, g[x].mainParent, blue, ps, t, j) && ps[t] in ps;
      }
      ListedInOrder(g, blue, diff, done, ps, x, i, j);
    }
    BeforeStays(r, Emit(g, blue, diff, done, x), p, q);
  }

  lemma {:induction false} EmitInOrder(g: Graph, blue: set<Id>, diff: set<Id>, done: seq<Id>, b: Id, x: Id, p: Id,
                                       q: Id)
    requires DistinctHashes(g) && diff <= g.Keys && OnlyThrough(g, blue, diff, x, p, q)
    requires Topological(g, diff, done) && q !in done && b in diff && b != q && q in Emit(g, blue, diff, done, b)
    ensures Before(Emit(g, blue, diff, done, b), p, q)
    decreases b
  {
    if b == x {
      TreatedInOrder(g, blue, diff, done, x, p, q);
    } else {
      var ps := Pending(g, blue, diff, done, b);
      EmitAllInOrder(g, blue, diff, done, ps, b, x, p, q);
      BeforeStays(EmitAll(g, blue, diff, done, ps, b), Emit(g, blue, diff, done, b), p, q);
    }
  }

  lemma {:induction false} EmitAllInOrder(g: Graph, blue: set<Id>, diff: set<Id>, done: seq<Id>, xs: seq<Id>,
                                          bound: nat, x: Id, p: Id, q: Id)
    requires DistinctHashes(g) && diff <= g.Keys && OnlyThrough(g, blue, diff, x, p, q)
    requires Topological(g, diff, done) && q !in done && Inside(diff, xs, bound)
    requires q !in xs && q in EmitAll(g, blue, diff, done, xs, bound)
    ensures Before(EmitAll(g, blue, diff, done, xs, bound), p, q)
    decreases bound, |xs|
  {
    if xs != [] {
      HeadAndTail(xs);
      var mid := Emit(g, blue, diff, done, xs[0]);
      EmitProps(g, blue, diff, done, xs[0]);
      EmitAllProps(g, blue, diff, mid, xs[1..], bound);
      if q in mid {
        EmitInOrder(g, blue, diff, done, xs[0], x, p, q);
        BeforeStays(mid, EmitAll(g, blue, diff, done, xs, bound), p, q);
      } else {
        EmitAllInOrder(g, blue, diff, mid, xs[1..], bound, x, p, q);
      }
    }
  }

  /** The same for the parents of any block of the diff-anticone: its main parent first, then the blue
      ones, then the red ones, the bluer before the less blue. */
  lemma InnerParentsInOrder(g: Graph, parents: set<Id>, mainParent: Id, blue: set<Id>, diff: set<Id>, x: Id, p: Id,
                            q: Id)
    requires DistinctHashes(g) && diff <= g.Keys && OnlyThrough(g, blue, diff, x, p, q) && q !in parents
    requires q in DiffSeq(g, parents, mainParent, blue, diff)
    ensures Before(DiffSeq(g, parents, mainParent, blue, diff), p, q)
  {
    EmitAllInOrder(g, blue, diff, [], Arrange(g, mainParent, blue, parents, diff), MAX_ID, x, p, q);
  }
}
