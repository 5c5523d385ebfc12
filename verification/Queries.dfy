/** Questions asked about a committed DAG: where a block meets the main chain,
    whether it is blue, and whether it is mature. */
module Queries {
  import opened Dag
  import opened Blue
  import opened Spec
  import opened Colour
  import opened State

  datatype Option<T> = None | Some(value: T)

  // ---------------------------------------------------------------- the main fork

  /** `b` can be reached from `a`, through children (`up`) or through parents. */
  ghost predicate Reaches(g: Graph, up: bool, a: Id, b: Id)
    requires a in g && b in g
  {
    if up then a in Cone(g, b) else b in Cone(g, a)
  }

  /** The children or the parents of every block, listed in some order. */
  ghost predicate Listing(g: Graph, up: bool, next: map<Id, seq<Id>>)
  {
    && next.Keys == g.Keys
    && (forall x, i {:trigger next[x][i]} :: x in g && 0 <= i < |next[x]| ==>
          next[x][i] in g && if up then x in g[next[x][i]].parents else next[x][i] in g[x].parents)
    && (forall x, p {:trigger p in g[x].parents} :: x in g && p in g[x].parents ==>
          if up then x in next[p] else p in next[x])
  }

  ghost function Rank(up: bool, x: Id): nat {
    if up && x < MAX_ID then MAX_ID - x else x
  }

  /** The number of paths that start at the blocks of a queue. */
  ghost function Paths(g: Graph, up: bool, next: map<Id, seq<Id>>, x: Id): nat
    requires Listing(g, up, next) && x in g
    decreases Rank(up, x), 1, 0
  {
    1 + AllPaths(g, up, next, next[x], Rank(up, x))
  }

  ghost function AllPaths(g: Graph, up: bool, next: map<Id, seq<Id>>, xs: seq<Id>, bound: nat): nat
    requires Listing(g, up, next) && Below(g, up, xs, bound)
    decreases bound, 0, |xs|
  {
    if xs == [] then 0 else Paths(g, up, next, xs[0]) + AllPaths(g, up, next, xs[1..], bound)
  }

  ghost predicate Below(g: Graph, up: bool, xs: seq<Id>, bound: nat)
  {
    forall i :: 0 <= i < |xs| ==> xs[i] in g && Rank(up, xs[i]) < bound
  }

  lemma {:induction false} AnyBound(g: Graph, up: bool, next: map<Id, seq<Id>>, xs: seq<Id>, b: nat, c: nat)
    requires Listing(g, up, next) && Below(g, up, xs, b) && Below(g, up, xs, c)
    ensures AllPaths(g, up, next, xs, b) == AllPaths(g, up, next, xs, c)
    decreases |xs|
  {
    if xs != [] {
      AnyBound(g, up, next, xs[1..], b, c);
    }
  }

  lemma {:induction false} AllPathsConcat(g: Graph, up: bool, next: map<Id, seq<Id>>, xs: seq<Id>, ys: seq<Id>, b: nat)
    requires Listing(g, up, next) && Below(g, up, xs, b) && Below(g, up, ys, b)
    ensures Below(g, up, xs + ys, b)
    ensures AllPaths(g, up, next, xs + ys, b) == AllPaths(g, up, next, xs, b) + AllPaths(g, up, next, ys, b)
    decreases |xs|
  {
    if xs == [] {
      assert xs + ys == ys;
    } else {
      assert (xs + ys)[1..] == xs[1..] + ys && (xs + ys)[0] == xs[0];
      AllPathsConcat(g, up, next, xs[1..], ys, b);
    }
  }

  lemma FewerPaths(g: Graph, up: bool, next: map<Id, seq<Id>>, queue: seq<Id>, bound: nat)
    requires Listing(g, up, next) && queue != [] && Below(g, up, queue, bound)
    ensures var rest := queue[1..] + next[queue[0]];
      Below(g, up, rest, bound) && AllPaths(g, up, next, rest, bound) < AllPaths(g, up, next, queue, bound)
  {
    var cur := queue[0];
    AnyBound(g, up, next, next[cur], Rank(up, cur), bound);
    AllPathsConcat(g, up, next, queue[1..], next[cur], bound);
  }

  lemma NextStep(g: Graph, up: bool, next: map<Id, seq<Id>>, cur: Id, m: Id)
    requires Listing(g, up, next) && cur in g && m in g && cur != m && Reaches(g, up, cur, m)
    ensures exists i :: 0 <= i < |next[cur]| && next[cur][i] in g && Reaches(g, up, next[cur][i], m)
  {
    if up {
      var c := ConeStep(g, m, cur);
      assert c in next[cur];
    } else {
      var p :| p in g[cur].parents && m in Cone(g, p);
      assert p in next[cur];
    }
  }

  lemma ReachesOn(g: Graph, up: bool, next: map<Id, seq<Id>>, a: Id, cur: Id, i: nat)
    requires Listing(g, up, next) && a in g && cur in g && Reaches(g, up, a, cur) && i < |next[cur]|
    ensures next[cur][i] in g && Reaches(g, up, a, next[cur][i])
  {
    var c := next[cur][i];
    if up {
      ConeOfParent(g, c, cur);
    } else {
      ConeHasParents(g, a, cur, c);
    }
  }

  /** Everything on the main chain that the start reaches is reached from the queue. */
  ghost predicate Covers(g: Graph, up: bool, main: set<Id>, start: Id, queue: seq<Id>)
    requires start in g && main <= g.Keys
  {
    && (forall i :: 0 <= i < |queue| ==> queue[i] in g && Reaches(g, up, start, queue[i]))
    && (forall m :: m in main && Reaches(g, up, start, m) ==>
          exists i :: 0 <= i < |queue| && queue[i] in g && Reaches(g, up, queue[i], m))
  }

  lemma CoversStep(g: Graph, up: bool, next: map<Id, seq<Id>>, main: set<Id>, start: Id, queue: seq<Id>)
    requires Listing(g, up, next) && start in g && main <= g.Keys && queue != [] && Covers(g, up, main, start, queue)
    requires queue[0] !in main
    ensures Covers(g, up, main, start, queue[1..] + next[queue[0]])
  {
    var cur, rest := queue[0], queue[1..] + next[queue[0]];
    forall i | 0 <= i < |rest| ensures rest[i] in g && Reaches(g, up, start, rest[i]) {
      if i >= |queue| - 1 {
        ReachesOn(g, up, next, start, cur, i - (|queue| - 1));
      }
    }
    forall m | m in main && Reaches(g, up, start, m)
      ensures exists i :: 0 <= i < |rest| && rest[i] in g && Reaches(g, up, rest[i], m)
    {
      StillReached(g, up, next, queue, m);
    }
  }

  lemma StillReached(g: Graph, up: bool, next: map<Id, seq<Id>>, queue: seq<Id>, m: Id)
    requires Listing(g, up, next) && queue != [] && queue[0] in g && m in g && queue[0] != m
    requires exists i :: 0 <= i < |queue| && queue[i] in g && Reaches(g, up, queue[i], m)
    ensures var rest := queue[1..] + next[queue[0]];
      exists i :: 0 <= i < |rest| && rest[i] in g && Reaches(g, up, rest[i], m)
  {
    var cur, rest := queue[0], queue[1..] + next[queue[0]];
    var i :| 0 <= i < |queue| && queue[i] in g && Reaches(g, up, queue[i], m);
    if i > 0 {
      assert rest[i - 1] == queue[i];
    } else {
      NextStep(g, up, next, cur, m);
      var j :| 0 <= j < |next[cur]| && next[cur][j] in g && Reaches(g, up, next[cur][j], m);
      assert rest[|queue| - 1 + j] == next[cur][j];
    }
  }

  /** Breadth-first search for the main chain, without marking visited blocks. */
  method GetMainFork(g: Graph, next: map<Id, seq<Id>>, main: set<Id>, start: Id, up: bool) returns (r: Option<Id>)
    requires Listing(g, up, next) && start in g && main <= g.Keys
    ensures r.Some? ==> r.value in main && Reaches(g, up, start, r.value)
    ensures r.None? ==> forall m :: m in main ==> !Reaches(g, up, start, m)
  {
    if start in main {
      ConeBounds(g, start);
      return Some(start);
    }
    var queue := [start];
    ConeBounds(g, start);
    assert queue[0] == start;
    while queue != []
      invariant Covers(g, up, main, start, queue)
      decreases AllPaths(g, up, next, queue, MAX_ID + 1)
    {
      var cur := queue[0];
      if cur in main {
        return Some(cur);
      }
      CoversStep(g, up, next, main, start, queue);
      FewerPaths(g, up, next, queue, MAX_ID + 1);
      queue := queue[1..] + next[cur];
    }
    r := None;
  }

  // ---------------------------------------------------------------- committed DAGs

  /** What the queries read: blocks, listed children and parents, main chain, and the unordered blocks. */
  datatype View = View(
    g: map<Id, Node>,
    ups: map<Id, seq<Id>>,
    downs: map<Id, seq<Id>>,
    main: set<Id>,
    tip: Id,
    diffAnticone: set<Id>)

  ghost predicate Committed(v: View, k: nat)
  {
    && Closed(v.g) && Wf(v.g, k) && v.tip in v.g
    && Listing(v.g, true, v.ups) && Listing(v.g, false, v.downs)
    && v.main == Elems(Chain(v.g, v.tip)) && v.diffAnticone == v.g.Keys - Cone(v.g, v.tip)
  }

  /** A node between two blocks offers such a view. */
  lemma StoredIsCommitted(m: Mem, k: nat, db: Db, ups: map<Id, seq<Id>>, downs: map<Id, seq<Id>>)
    requires MemOk(m, k) && m.total > 0 && DbOk(m, k, db) && Listing(m.g, true, ups) && Listing(m.g, false, downs)
    ensures Committed(View(m.g, ups, downs, db.mainChain, m.mainTip, m.diffAnticone), k)
  {
    MainTipFacts(m, k);
  }

  lemma MainIsPast(g: Graph, t: Id)
    requires t in g
    ensures Elems(Chain(g, t)) <= Cone(g, t) <= g.Keys && t in Elems(Chain(g, t)) && 0 in Elems(Chain(g, t))
  {
    ConeBounds(g, t);
    ChainBounds(g, t);
  }

  /** Of two main-chain blocks the one on the higher layer has the other one in its past. */
  lemma {:induction false} HigherOnMain(g: Graph, k: nat, t: Id, a: Id, b: Id)
    requires Wf(g, k) && t in g && a in Chain(g, t) && b in Chain(g, t)
    ensures a in g && b in g && (g[b].layer <= g[a].layer ==> b in Cone(g, a))
    decreases t
  {
    ChainInCone(g, t, a);
    ChainInCone(g, t, b);
    if a == t {
    } else if b == t {
      PastIsLower(g, k, t, a);
    } else {
      HigherOnMain(g, k, g[t].mainParent, a, b);
    }
  }

  // ---------------------------------------------------------------- blue

  /** Above a fork nothing of the fork's closed past is coloured. */
  lemma {:induction false} BlueAtFork(g: Graph, k: nat, t: Id, f: Id, b: Id)
    requires Wf(g, k) && t in g && f in Chain(g, t) && f in g && b in Cone(g, f)
    ensures b in BluePast(g, t) <==> b in BluePast(g, f)
    decreases t
  {
    if f != t {
      var mp := g[t].mainParent;
      BlueAtFork(g, k, mp, f, b);
      ConeSplit(g, k, t);
      ChainInCone(g, mp, f);
      ConeTransitive(g, mp, f);
    }
  }

  /** Walks down the main chain from the fork; stops below the block's layer. */
  method WalkBlue(g: Graph, k: nat, fork: Id, b: Id) returns (blue: bool)
    requires Wf(g, k) && fork in g && b in g
    ensures blue <==> b in BluePast(g, fork)
  {
    var cur := fork;
    while true
      invariant cur in g && (b in BluePast(g, fork) <==> b in BluePast(g, cur))
      decreases cur
    {
      if cur == b || b in g[cur].blue {
        return true;
      }
      if g[cur].layer < g[b].layer {
        NotBelow(g, k, cur, b);
        return false;
      }
      if g[cur].mainParent == MAX_ID {
        return false;
      }
      cur := g[cur].mainParent;
    }
  }

  lemma NotBelow(g: Graph, k: nat, c: Id, b: Id)
    requires Wf(g, k) && c in g && b in g && g[c].layer < g[b].layer
    ensures b !in BluePast(g, c)
  {
    BlueNumCounts(g, k, c);
    if b in Cone(g, c) {
      PastIsLower(g, k, c, b);
    }
  }

  /** Whether a block is blue, seen from the main tip; from any fork the answer is the same. */
  method DoIsBlue(v: View, k: nat, b: Id, fork: Option<Id>) returns (blue: bool)
    requires Committed(v, k) && b in v.g
    requires fork.Some? ==> fork.value in v.main && fork.value in v.g && b in Cone(v.g, fork.value)
    ensures blue <==> b in BluePast(v.g, v.tip)
  {
    MainIsPast(v.g, v.tip);
    if b in v.diffAnticone {
      BlueNumCounts(v.g, k, v.tip);
      return false;
    }
    var f := fork;
    if f.None? {
      f := GetMainFork(v.g, v.ups, v.main, b, true);
      assert f.Some? by {
        assert v.tip in v.main && Reaches(v.g, true, b, v.tip);
      }
    }
    BlueAtFork(v.g, k, v.tip, f.value, b);
    blue := WalkBlue(v.g, k, f.value, b);
  }

  // ---------------------------------------------------------------- maturity

  /** The target has a main-chain block as descendant, or is one. */
  ghost predicate UnderMain(v: View, k: nat, target: Id)
    requires Committed(v, k) && target in v.g
  {
    exists m :: m in v.main && m in v.g && target in Cone(v.g, m)
  }

  ghost predicate Seen(g: Graph, views: seq<Id>, target: Id)
  {
    exists i :: 0 <= i < |views| && views[i] in g && target in Cone(g, views[i])
  }

  ghost predicate AllIn(g: Graph, views: seq<Id>)
  {
    forall i :: 0 <= i < |views| ==> views[i] in g
  }

  /** A main-chain block that some view reaches. */
  ghost predicate ForkOfView(v: View, views: seq<Id>, f: Id)
    requires Closed(v.g)
  {
    f in v.main && f in v.g && Seen(v.g, views, f)
  }

  /** A high enough main-chain block below some view vouches for the target. */
  lemma ShortcutIsSound(v: View, k: nat, views: seq<Id>, f: Id, targetFork: Id, target: Id)
    requires Committed(v, k) && ForkOfView(v, views, f)
    requires targetFork in v.main && targetFork in v.g && target in Cone(v.g, targetFork)
    requires v.g[targetFork].layer <= v.g[f].layer
    ensures Seen(v.g, views, target)
  {
    HigherOnMain(v.g, k, v.tip, f, targetFork);
    var i :| 0 <= i < |views| && views[i] in v.g && f in Cone(v.g, views[i]);
    ConeTransitive(v.g, views[i], f);
    ConeTransitive(v.g, f, targetFork);
  }

  /** Everything marked is seen from a view, and what a marked block needs is marked or waiting. */
  ghost predicate Explored(g: Graph, views: seq<Id>, target: Id, marked: set<Id>, queue: seq<Id>)
    requires target in g
  {
    && marked <= g.Keys && (forall i :: 0 <= i < |queue| ==> queue[i] in marked)
    && (forall x :: x in marked ==> Seen(g, views, x))
    && (forall i :: 0 <= i < |views| ==> views[i] in marked)
    && (forall x :: x in marked && x !in queue ==>
          x != target && (g[x].layer <= g[target].layer || g[x].parents <= marked))
  }

  /** When nothing is waiting, the target has not been seen at all. */
  lemma {:induction false} NotReached(g: Graph, k: nat, views: seq<Id>, target: Id, marked: set<Id>, x: Id)
    requires Wf(g, k) && target in g && Explored(g, views, target, marked, []) && x in marked
    ensures target !in Cone(g, x)
    decreases x
  {
    if target in Cone(g, x) {
      PastIsLower(g, k, x, target);
      var p :| p in g[x].parents && target in Cone(g, p);
      NotReached(g, k, views, target, marked, p);
    }
  }

  lemma SeenParent(g: Graph, views: seq<Id>, x: Id, p: Id)
    requires x in g && p in g[x].parents && Seen(g, views, x)
    ensures Seen(g, views, p)
  {
    var i :| 0 <= i < |views| && views[i] in g && x in Cone(g, views[i]);
    ConeHasParents(g, views[i], x, p);
  }

  method MarkParents(g: Graph, parents: set<Id>, marked0: set<Id>, queue0: seq<Id>)
    returns (marked: set<Id>, queue: seq<Id>)
    requires parents <= g.Keys
    ensures marked == marked0 + parents && queue0 <= queue
    ensures forall x :: x in queue <==> x in queue0 || (x in parents && x !in marked0)
    ensures parents <= marked0 ==> queue == queue0
  {
    marked, queue := marked0, queue0;
    var rest := parents;
    while rest != {}
      invariant rest <= parents && marked == marked0 + (parents - rest) && queue0 <= queue
      invariant forall x :: x in queue <==> x in queue0 || (x in parents && x !in rest && x !in marked0)
      invariant parents <= marked0 ==> queue == queue0
    {
      var p :| p in rest;
      rest := rest - {p};
      if p in marked {
        continue;
      }
      queue, marked := queue + [p], marked + {p};
    }
  }

  lemma ExploredStep(g: Graph, views: seq<Id>, target: Id, marked: set<Id>, queue: seq<Id>, marked': set<Id>,
                     queue': seq<Id>)
    requires target in g && Explored(g, views, target, marked, queue) && queue != [] && queue[0] != target
    requires marked' == marked + g[queue[0]].parents
    requires forall x :: x in queue' <==> x in queue[1..] || (x in g[queue[0]].parents && x !in marked)
    ensures Explored(g, views, target, marked', queue')
  {
    var cur := queue[0];
    HeadAndTail(queue);
    forall x | x in marked' ensures Seen(g, views, x) {
      if x !in marked {
        SeenParent(g, views, cur, x);
      }
    }
    forall i | 0 <= i < |queue'| ensures queue'[i] in marked' {
      assert queue'[i] in queue';
    }
    forall x | x in marked' && x !in queue'
      ensures x != target && (g[x].layer <= g[target].layer || g[x].parents <= marked')
    {
      assert x in marked && (x == cur || x !in queue);
    }
  }

  lemma ExploredSkip(g: Graph, views: seq<Id>, target: Id, marked: set<Id>, queue: seq<Id>)
    requires target in g && Explored(g, views, target, marked, queue) && queue != [] && queue[0] != target
    requires g[queue[0]].layer <= g[target].layer || g[queue[0]].parents == {}
    ensures Explored(g, views, target, marked, queue[1..])
  {
    HeadAndTail(queue);
  }

  lemma FewerOpen(all: set<Id>, before: set<Id>, after: set<Id>, parents: set<Id>)
    requires parents <= all && after == before + parents
    ensures parents <= before || all - after < all - before
    ensures parents <= before ==> after == before
  {
    if !(parents <= before) {
      var p :| p in parents && p !in before;
      assert p in all - before && p !in all - after;
    }
  }

  /** Takes the first block off the queue and puts its parents on it. */
  method Visit(g: Graph, ghost views: seq<Id>, target: Id, marked0: set<Id>, queue0: seq<Id>)
    returns (marked: set<Id>, queue: seq<Id>)
    requires target in g && Explored(g, views, target, marked0, queue0) && queue0 != [] && queue0[0] != target
    ensures Explored(g, views, target, marked, queue)
    ensures (marked == marked0 && |queue| < |queue0|) || g.Keys - marked < g.Keys - marked0
  {
    var cur := queue0[0];
    assert cur in marked0;
    marked, queue := marked0, queue0[1..];
    if g[cur].parents != {} && g[cur].layer > g[target].layer {
      marked, queue := MarkParents(g, g[cur].parents, marked, queue);
      ExploredStep(g, views, target, marked0, queue0, marked, queue);
      FewerOpen(g.Keys, marked0, marked, g[cur].parents);
    } else {
      ExploredSkip(g, views, target, marked0, queue0);
    }
  }

  /** Plain search from the views down to the layer of the target. */
  method Connected(g: Graph, k: nat, views: seq<Id>, target: Id) returns (connected: bool)
    requires Wf(g, k) && target in g && AllIn(g, views)
    ensures connected <==> Seen(g, views, target)
  {
    var queue, marked := views, set x | x in views;
    StartExplored(g, views, target, marked);
    while queue != []
      invariant Explored(g, views, target, marked, queue)
      decreases g.Keys - marked, |queue|
    {
      assert queue[0] in marked;
      if queue[0] == target {
        return true;
      }
      marked, queue := Visit(g, views, target, marked, queue);
    }
    connected := false;
    NeverSeen(g, k, views, target, marked);
  }

  lemma NeverSeen(g: Graph, k: nat, views: seq<Id>, target: Id, marked: set<Id>)
    requires Wf(g, k) && target in g && Explored(g, views, target, marked, [])
    ensures !Seen(g, views, target)
  {
    if Seen(g, views, target) {
      var i :| 0 <= i < |views| && views[i] in g && target in Cone(g, views[i]);
      NotReached(g, k, views, target, marked, views[i]);
    }
  }

  lemma StartExplored(g: Graph, views: seq<Id>, target: Id, marked: set<Id>)
    requires target in g && AllIn(g, views) && marked == set x | x in views
    ensures Explored(g, views, target, marked, views)
  {
    forall x | x in views ensures x in g && Seen(g, views, x) {
      var i :| 0 <= i < |views| && views[i] == x;
      ConeBounds(g, x);
    }
  }

  // ---------------------------------------------------------------- the batch check

  /** Mature: far enough below some view, below the main chain, and in the past of some view. */
  ghost predicate Mature(v: View, k: nat, views: seq<Id>, target: Id, max: nat)
    requires Committed(v, k) && AllIn(v.g, views) && target in v.g
  {
    && (exists i :: 0 <= i < |views| && v.g[views[i]].layer - v.g[target].layer >= max)
    && UnderMain(v, k, target) && Seen(v.g, views, target)
  }

  /** With the main tip as the only view: far enough below it and in its past. */
  lemma MatureFromTip(v: View, k: nat, target: Id, max: nat)
    requires Committed(v, k) && target in v.g
    ensures AllIn(v.g, [v.tip])
    ensures Mature(v, k, [v.tip], target, max) <==>
      v.g[target].layer + max <= v.g[v.tip].layer && target in Cone(v.g, v.tip)
  {
    MainIsPast(v.g, v.tip);
    assert [v.tip][0] == v.tip;
  }

  ghost predicate HighestView(g: Graph, views: seq<Id>, maxView: Id)
    requires AllIn(g, views)
  {
    maxView in g && maxView in views && forall i :: 0 <= i < |views| ==> g[views[i]].layer <= g[maxView].layer
  }

  /** The fork of the target: itself or a main-chain descendant. */
  method TargetFork(v: View, k: nat, target: Id) returns (fork: Option<Id>)
    requires Committed(v, k) && target in v.g
    ensures fork.Some? <==> UnderMain(v, k, target)
    ensures fork.Some? ==> fork.value in v.main && fork.value in v.g && target in Cone(v.g, fork.value)
  {
    MainIsPast(v.g, v.tip);
    fork := GetMainFork(v.g, v.ups, v.main, target, true);
    if UnderMain(v, k, target) {
      var m :| m in v.main && m in v.g && target in Cone(v.g, m);
      assert Reaches(v.g, true, target, m);
    }
  }

  /** A main-chain block in the past of one of the views; there always is one. */
  method ViewFork(v: View, k: nat, ghost views: seq<Id>, view: Id) returns (fork: Id)
    requires Committed(v, k) && AllIn(v.g, views) && view in views && view in v.g
    ensures ForkOfView(v, views, fork)
  {
    MainIsPast(v.g, v.tip);
    var r := GetMainFork(v.g, v.downs, v.main, view, false);
    assert r.Some? by {
      GenesisInCone(v.g, view);
      assert 0 in v.main && Reaches(v.g, false, view, 0);
    }
    fork := r.value;
    ghost var i :| 0 <= i < |views| && views[i] == view;
  }

  /** Tries the other views' forks one after the other; `found` is a shortcut to the target. */
  method OtherForks(v: View, k: nat, views: seq<Id>, maxView: Id, targetFork: Id, max: nat, fork0: Option<Id>,
                    ghost target: Id)
    returns (found: bool, fork: Option<Id>)
    requires Committed(v, k) && AllIn(v.g, views) && targetFork in v.main
    requires targetFork in v.g && target in Cone(v.g, targetFork)
    requires fork0.Some? ==> ForkOfView(v, views, fork0.value)
    ensures found ==> Seen(v.g, views, target)
    ensures fork.Some? ==> ForkOfView(v, views, fork.value)
  {
    fork := fork0;
    for i := 0 to |views|
      invariant fork.Some? ==> ForkOfView(v, views, fork.value)
    {
      if views[i] != maxView {
        var f := ViewFork(v, k, views, views[i]);
        fork := Some(f);
        if v.g[f].layer - v.g[targetFork].layer >= max {
          ShortcutIsSound(v, k, views, f, targetFork, target);
          return true, fork;
        }
      }
    }
    found := false;
  }

  /** Maturity of one target, with the fork found for an earlier target as a first guess. */
  method ProcessMaturity(v: View, k: nat, target: Id, views: seq<Id>, mainView: Option<Id>, maxView: Id,
                         viewFork0: Option<Id>, max: nat)
    returns (ok: bool, viewFork: Option<Id>, targetFork: Option<Id>)
    requires Committed(v, k) && target in v.g && AllIn(v.g, views) && HighestView(v.g, views, maxView)
    requires mainView.Some? ==> ForkOfView(v, views, mainView.value)
    requires viewFork0.Some? ==> ForkOfView(v, views, viewFork0.value)
    ensures ok <==> Mature(v, k, views, target, max)
    ensures viewFork.Some? ==> ForkOfView(v, views, viewFork.value)
    ensures ok ==> targetFork.Some? && targetFork.value in v.main
    ensures ok ==> targetFork.value in v.g && target in Cone(v.g, targetFork.value)
  {
    if v.g[maxView].layer - v.g[target].layer < max {
      return false, None, None;
    }
    assert exists i :: 0 <= i < |views| && v.g[views[i]].layer - v.g[target].layer >= max by {
      var i :| 0 <= i < |views| && views[i] == maxView;
    }
    targetFork := TargetFork(v, k, target);
    if targetFork.None? {
      return false, None, None;
    }
    var low := v.g[targetFork.value].layer;
    if mainView.Some? && v.g[mainView.value].layer - low >= max {
      ShortcutIsSound(v, k, views, mainView.value, targetFork.value, target);
      return true, None, targetFork;
    }
    viewFork := viewFork0;
    if viewFork.None? {
      var f := ViewFork(v, k, views, maxView);
      viewFork := Some(f);
    }
    if v.g[viewFork.value].layer - low >= max {
      ShortcutIsSound(v, k, views, viewFork.value, targetFork.value, target);
      return true, viewFork, targetFork;
    }
    ok, viewFork := OtherForks(v, k, views, maxView, targetFork.value, max, viewFork, target);
    if !ok {
      ok := Connected(v.g, k, views, target);
    }
  }

  /** The targets are known; their highest layer, or 0. */
  method ReadTargets(g: Graph, targets: seq<Id>) returns (ok: bool, top: nat)
    ensures ok <==> AllIn(g, targets)
    ensures ok ==> (forall i :: 0 <= i < |targets| ==> g[targets[i]].layer <= top)
    ensures ok ==> top == 0 || exists i :: 0 <= i < |targets| && g[targets[i]].layer == top
  {
    top := 0;
    for i := 0 to |targets|
      invariant forall j :: 0 <= j < i ==> targets[j] in g && g[targets[j]].layer <= top
      invariant top == 0 || exists j :: 0 <= j < i && g[targets[j]].layer == top
    {
      if targets[i] == MAX_ID || targets[i] !in g {
        return false, top;
      }
      if g[targets[i]].layer > top {
        top := g[targets[i]].layer;
      }
    }
    ok := true;
  }

  /** The views are known and higher than every target; the highest one and the first one on the main chain. */
  method ReadViews(v: View, k: nat, views: seq<Id>, top: nat) returns (ok: bool, mainView: Option<Id>, maxView: Id)
    requires Committed(v, k)
    ensures ok <==> AllIn(v.g, views) && forall i :: 0 <= i < |views| ==> top < v.g[views[i]].layer
    ensures ok && views != [] ==> HighestView(v.g, views, maxView)
    ensures ok && mainView.Some? ==> ForkOfView(v, views, mainView.value)
  {
    mainView, maxView := None, MAX_ID;
    for i := 0 to |views|
      invariant forall j :: 0 <= j < i ==> views[j] in v.g && top < v.g[views[j]].layer
      invariant if i == 0 then maxView == MAX_ID else maxView in v.g && maxView in views[..i]
      invariant forall j :: 0 <= j < i ==> v.g[views[j]].layer <= v.g[maxView].layer
      invariant mainView.Some? ==> mainView.value in v.main && mainView.value in views[..i]
    {
      var view := views[i];
      if view !in v.g || top >= v.g[view].layer {
        return false, mainView, maxView;
      }
      if maxView == MAX_ID || v.g[maxView].layer < v.g[view].layer {
        maxView := view;
      }
      if mainView.None? && view in v.main {
        mainView := Some(view);
      }
      assert views[..i + 1] == views[..i] + [view];
    }
    ok := true;
    assert views[..|views|] == views;
    if mainView.Some? {
      ViewIsFork(v, k, views, mainView.value);
    }
  }

  lemma ViewIsFork(v: View, k: nat, views: seq<Id>, f: Id)
    requires Committed(v, k) && AllIn(v.g, views) && f in v.main && f in views
    ensures ForkOfView(v, views, f)
  {
    var i :| 0 <= i < |views| && views[i] == f;
    ConeBounds(v.g, f);
  }

  /** Blue, seen from the main tip, and mature, seen from the views. */
  ghost predicate BlueAndMature(v: View, k: nat, views: seq<Id>, target: Id, max: nat)
    requires Committed(v, k) && AllIn(v.g, views) && target in v.g
  {
    Mature(v, k, views, target, max) && target in BluePast(v.g, v.tip)
  }

  /** The batch check: it passes exactly when all blocks are known, every view is above layer 0 and
      above every target, and every target is blue and mature. */
  method CheckBlueAndMature(v: View, k: nat, targets: seq<Id>, views: seq<Id>, max: nat) returns (ok: bool)
    requires Committed(v, k) && (targets == [] || views != [])
    ensures ok <==>
      && AllIn(v.g, targets) && AllIn(v.g, views)
      && (forall i :: 0 <= i < |views| ==> 0 < v.g[views[i]].layer)
      && (forall i, j :: 0 <= i < |views| && 0 <= j < |targets| ==> v.g[targets[j]].layer < v.g[views[i]].layer)
      && (forall j :: 0 <= j < |targets| ==> BlueAndMature(v, k, views, targets[j], max))
  {
    var top, mainView, maxView;
    ok, top := ReadTargets(v.g, targets);
    if !ok {
      return;
    }
    ok, mainView, maxView := ReadViews(v, k, views, top);
    if !ok {
      return;
    }
    var viewFork: Option<Id>, targetFork: Option<Id> := None, None;
    for j := 0 to |targets|
      invariant viewFork.Some? ==> ForkOfView(v, views, viewFork.value)
      invariant forall i :: 0 <= i < j ==> BlueAndMature(v, k, views, targets[i], max)
    {
      ok, viewFork, targetFork := ProcessMaturity(v, k, targets[j], views, mainView, maxView, viewFork, max);
      if !ok {
        return;
      }
      ok := DoIsBlue(v, k, targets[j], targetFork);
      if !ok {
        return;
      }
    }
    ok := true;
  }

  /** The same question with the main tip as the only view. */
  method CheckMainBlueAndMature(v: View, k: nat, target: Id, fork0: Option<Id>, max: nat)
    returns (ok: bool, fork: Option<Id>)
    requires Committed(v, k) && target in v.g
    requires fork0.Some? ==> fork0.value in v.main && fork0.value in v.g && target in Cone(v.g, fork0.value)
    ensures ok <==> v.g[v.tip].layer - v.g[target].layer >= max && target in BluePast(v.g, v.tip)
    ensures fork.Some? ==> fork.value in v.main && fork.value in v.g && target in Cone(v.g, fork.value)
  {
    fork := fork0;
    if v.g[v.tip].layer - v.g[target].layer < max {
      return false, fork;
    }
    BlueNumCounts(v.g, k, v.tip);
    if fork.None? {
      fork := TargetFork(v, k, target);
    }
    if fork.None? {
      return false, fork;
    }
    if v.g[v.tip].layer - v.g[fork.value].layer < max {
      ok := Connected(v.g, k, [v.tip], target);
      if !ok {
        assert [v.tip][0] == v.tip;
        return;
      }
    }
    ok := DoIsBlue(v, k, target, fork);
  }
}
