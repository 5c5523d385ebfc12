/** Future sets and anticones, found by walking children and parents. */
module Anticone {
  import opened Dag

  /** `children` is the inverse of the parent relation. */
  ghost predicate Inverse(g: Graph, children: map<Id, set<Id>>)
  {
    && children.Keys == g.Keys
    && (forall x, c {:trigger c in children[x]} :: x in g && c in children[x] ==> c in g && x in g[c].parents)
    && (forall c, x {:trigger x in g[c].parents} :: c in g && x in g[c].parents ==> c in children[x])
  }

  /** Blocks that reach `b`. */
  ghost function Future(g: Graph, b: Id): set<Id>
    requires b in g
  {
    set c | c in g && c != b && b in Cone(g, c)
  }

  /** Blocks that neither reach `b` nor are reached from it. */
  ghost function AnticoneOf(g: Graph, b: Id): set<Id>
    requires b in g
  {
    set x | x in g && x !in Cone(g, b) && b !in Cone(g, x)
  }

  // ---------------------------------------------------------------- future

  /** A set with the children of `b` and of all its members contains the future. */
  lemma {:induction false} FutureLeast(g: Graph, children: map<Id, set<Id>>, b: Id, s: set<Id>, c: Id)
    requires Inverse(g, children) && b in g && children[b] <= s
    requires forall x :: x in s && x in g ==> children[x] <= s
    requires c in g && c != b && b in Cone(g, c)
    ensures c in s
    decreases c
  {
    var p :| p in g[c].parents && b in Cone(g, p);
    if p != b {
      FutureLeast(g, children, b, s, p);
    }
  }

  lemma ChildOfFuture(g: Graph, children: map<Id, set<Id>>, b: Id, x: Id, c: Id)
    requires Inverse(g, children) && b in g && x in g && b in Cone(g, x) && c in children[x]
    ensures c in Future(g, b)
  {
    ConeOfParent(g, c, x);
    ConeBounds(g, x);
  }

  /** Adds to `fs` whatever is reached from `b` through children. */
  method GetFutureSet(g: Graph, children: map<Id, set<Id>>, fs: set<Id>, b: Id, ghost root: Id) returns (r: set<Id>)
    requires Inverse(g, children) && b in g && root in g && root in Cone(g, b)
    requires fs <= Future(g, root)
    ensures fs <= r <= Future(g, root)
    ensures children[b] <= r
    ensures forall x :: x in r && x !in fs ==> children[x] <= r
    decreases MAX_ID - b
  {
    r := fs;
    var rest := children[b];
    while rest != {}
      invariant rest <= children[b]
      invariant fs <= r <= Future(g, root)
      invariant children[b] - rest <= r
      invariant forall x :: x in r && x !in fs ==> children[x] <= r
    {
      var k :| k in rest;
      rest := rest - {k};
      if k !in r {
        ChildOfFuture(g, children, root, b, k);
        ghost var before := r;
        r := GetFutureSet(g, children, r + {k}, k, root);
        assert forall x :: x in r && x !in fs ==> x in before || x == k || x !in before + {k};
      }
    }
  }

  method FutureSet(g: Graph, children: map<Id, set<Id>>, b: Id) returns (r: set<Id>)
    requires Inverse(g, children) && b in g
    ensures r == Future(g, b)
  {
    ConeBounds(g, b);
    r := GetFutureSet(g, children, {}, b, b);
    forall c | c in Future(g, b) ensures c in r {
      FutureLeast(g, children, b, r, c);
    }
  }

  // ---------------------------------------------------------------- anticone

  /** How future, anticone and the rest meet along the child relation. */
  ghost predicate Sides(g: Graph, children: map<Id, set<Id>>, b: Id, fut: set<Id>, anti: set<Id>)
  {
    && Inverse(g, children) && fut <= g.Keys && anti <= g.Keys
    && fut !! anti && b !in fut && b !in anti && 0 !in fut && 0 !in anti
    && (forall x, c {:trigger c in children[x]} :: x in fut && c in children[x] ==> c in fut)
    && (forall x, c {:trigger c in children[x]} :: x in anti && c in children[x] ==> c in fut || c in anti)
    && (forall x :: x in g && x !in fut && x !in anti && x != b ==>
          exists c :: c in children[x] && c !in fut && c !in anti)
  }

  lemma SidesHold(g: Graph, children: map<Id, set<Id>>, b: Id)
    requires Inverse(g, children) && b in g
    ensures Sides(g, children, b, Future(g, b), AnticoneOf(g, b))
  {
    var fut, anti := Future(g, b), AnticoneOf(g, b);
    ConeBounds(g, b);
    GenesisInCone(g, b);
    if 0 in fut {
      ConeBounds(g, 0);
    }
    forall x, c | x in fut && c in children[x] ensures c in fut {
      ChildOfFuture(g, children, b, x, c);
    }
    forall x, c | x in anti && c in children[x] ensures c in fut || c in anti {
      if c in Cone(g, b) {
        ConeHasParents(g, b, c, x);
      }
    }
    forall x | x in g && x !in fut && x !in anti && x != b
      ensures exists c :: c in children[x] && c !in fut && c !in anti
    {
      var c := ConeStep(g, b, x);
      assert c in children[x];
      if c in fut {
        ConeBounds(g, c);
      }
    }
  }

  /** All known reasons to wait are gone and somebody has looked at `x` or will. */
  ghost predicate Ripe(children: map<Id, set<Id>>, fut: set<Id>, found: set<Id>, seen: set<Id>, x: Id)
    requires x in children
  {
    && (forall c :: c in children[x] ==> c in fut || c in found)
    && (children[x] == {} || exists c :: c in children[x] && (c in found || c in seen))
  }

  /** Whoever is ripe is found or still to be looked at; the same for the future blocks above. */
  ghost predicate Owing(g: Graph, children: map<Id, set<Id>>, fut: set<Id>, anti: set<Id>,
                        found: set<Id>, seen: set<Id>, owed: set<Id>)
    requires children.Keys == g.Keys && fut <= g.Keys && anti <= g.Keys
  {
    && found <= anti && seen <= fut
    && (forall x :: x in anti && x !in found && Ripe(children, fut, found, seen, x) ==> x in owed)
    && (forall y :: y in fut && y !in seen && (children[y] == {} || exists c :: c in children[y] && c in seen)
          ==> y in owed)
  }

  lemma OwingFound(g: Graph, children: map<Id, set<Id>>, b: Id, fut: set<Id>, anti: set<Id>,
                   found: set<Id>, seen: set<Id>, owed: set<Id>, x: Id)
    requires Sides(g, children, b, fut, anti) && Owing(g, children, fut, anti, found, seen, owed + {x})
    requires x in anti
    ensures Owing(g, children, fut, anti, found + {x}, seen, owed + g[x].parents)
  {
    forall y | y in anti && y !in found + {x} && Ripe(children, fut, found + {x}, seen, y) && y !in g[x].parents
      ensures y in owed
    {
      assert x !in children[y];
      assert Ripe(children, fut, found, seen, y);
    }
  }

  lemma OwingSeen(g: Graph, children: map<Id, set<Id>>, b: Id, fut: set<Id>, anti: set<Id>,
                  found: set<Id>, seen: set<Id>, owed: set<Id>, x: Id)
    requires Sides(g, children, b, fut, anti) && Owing(g, children, fut, anti, found, seen, owed + {x})
    requires x in fut
    ensures Owing(g, children, fut, anti, found, seen + {x}, owed + g[x].parents)
  {
    forall y | y in anti && y !in found && Ripe(children, fut, found, seen + {x}, y) && y !in g[x].parents
      ensures y in owed
    {
      assert x !in children[y];
      assert Ripe(children, fut, found, seen, y);
    }
    forall y | y in fut && y !in seen + {x} && y !in g[x].parents
      && (children[y] == {} || exists c :: c in children[y] && c in seen + {x})
      ensures y in owed
    {
      assert x !in children[y];
    }
  }

  /** Whether every child is outside and already accounted for. */
  predicate IsVirtualTip(b: Id, fut: set<Id>, found: set<Id>, kids: set<Id>) {
    forall c :: c in kids ==> c != b && (c in fut || c in found)
  }

  lemma VirtualTipIsOutside(g: Graph, children: map<Id, set<Id>>, b: Id, fut: set<Id>, anti: set<Id>, found: set<Id>,
                            x: Id)
    requires Sides(g, children, b, fut, anti) && x in g && x != b && found <= anti
    requires IsVirtualTip(b, fut, found, children[x])
    ensures x in fut || x in anti
  {}

  lemma OwingNothing(g: Graph, children: map<Id, set<Id>>, b: Id, fut: set<Id>, anti: set<Id>,
                     found: set<Id>, seen: set<Id>, owed: set<Id>, x: Id)
    requires Sides(g, children, b, fut, anti) && Owing(g, children, fut, anti, found, seen, owed + {x})
    requires x in g && (x == b || x in found || !IsVirtualTip(b, fut, found, children[x]))
    ensures Owing(g, children, fut, anti, found, seen, owed)
  {
    if x in fut {
      assert x != b && x !in found && IsVirtualTip(b, fut, found, children[x]);
      assert false;
    }
    if x in anti && x !in found && Ripe(children, fut, found, seen, x) {
      assert IsVirtualTip(b, fut, found, children[x]);
      assert false;
    }
    forall y | y in anti && y !in found && Ripe(children, fut, found, seen, y) ensures y in owed {
      assert y in owed + {x} && y != x;
    }
  }

  method RecAnticone(g: Graph, children: map<Id, set<Id>>, b: Id, fut: set<Id>, found0: set<Id>, x: Id,
                     ghost anti: set<Id>, ghost seen0: set<Id>, ghost owed: set<Id>)
    returns (found: set<Id>, ghost seen: set<Id>)
    requires Sides(g, children, b, fut, anti) && x in g
    requires Owing(g, children, fut, anti, found0, seen0, owed + {x})
    ensures Owing(g, children, fut, anti, found, seen, owed)
    decreases x, 1
  {
    found, seen := found0, seen0;
    if x == b || x in found {
      OwingNothing(g, children, b, fut, anti, found, seen, owed, x);
      return;
    }
    var kids := children[x];
    if kids == {} || IsVirtualTip(b, fut, found, kids) {
      VirtualTipIsOutside(g, children, b, fut, anti, found, x);
      assert x != 0;  // block 0, which has no parents, is never expanded
      if x !in fut {
        OwingFound(g, children, b, fut, anti, found, seen, owed, x);
        found := found + {x};
      } else {
        OwingSeen(g, children, b, fut, anti, found, seen, owed, x);
        seen := seen + {x};
      }
      found, seen := RecAll(g, children, b, fut, found, g[x].parents, x, anti, seen, owed);
    } else {
      OwingNothing(g, children, b, fut, anti, found, seen, owed, x);
    }
  }

  method RecAll(g: Graph, children: map<Id, set<Id>>, b: Id, fut: set<Id>, found0: set<Id>, xs: set<Id>,
                ghost bound: nat,
                ghost anti: set<Id>, ghost seen0: set<Id>, ghost owed: set<Id>)
    returns (found: set<Id>, ghost seen: set<Id>)
    requires Sides(g, children, b, fut, anti) && xs <= g.Keys && forall x :: x in xs ==> x < bound
    requires Owing(g, children, fut, anti, found0, seen0, owed + xs)
    ensures Owing(g, children, fut, anti, found, seen, owed)
    decreases bound, 0
  {
    found, seen := found0, seen0;
    var rest := xs;
    while rest != {}
      invariant rest <= xs
      invariant Owing(g, children, fut, anti, found, seen, owed + rest)
    {
      var x :| x in rest;
      assert owed + rest == owed + (rest - {x}) + {x};
      rest := rest - {x};
      found, seen := RecAnticone(g, children, b, fut, found, x, anti, seen, owed + rest);
    }
    assert owed + rest == owed;
  }

  lemma {:induction false} AllFutureSeen(g: Graph, children: map<Id, set<Id>>, b: Id, fut: set<Id>, anti: set<Id>,
                                         found: set<Id>, seen: set<Id>, y: Id)
    requires Sides(g, children, b, fut, anti) && Owing(g, children, fut, anti, found, seen, {}) && y in fut
    ensures y in seen
    decreases MAX_ID - y
  {
    if children[y] != {} {
      var c :| c in children[y];
      AllFutureSeen(g, children, b, fut, anti, found, seen, c);
    }
  }

  lemma {:induction false} AllAnticoneFound(g: Graph, children: map<Id, set<Id>>, b: Id, fut: set<Id>, anti: set<Id>,
                                            found: set<Id>, seen: set<Id>, x: Id)
    requires Sides(g, children, b, fut, anti) && Owing(g, children, fut, anti, found, seen, {}) && x in anti
    ensures x in found
    decreases MAX_ID - x
  {
    forall c | c in children[x] ensures c in found || (c in fut && c in seen) {
      if c in anti {
        AllAnticoneFound(g, children, b, fut, anti, found, seen, c);
      } else {
        AllFutureSeen(g, children, b, fut, anti, found, seen, c);
      }
    }
    assert Ripe(children, fut, found, seen, x);
  }

  /** The anticone of `b`, from the tips down; `tips` are the childless blocks. */
  method GetAnticone(g: Graph, children: map<Id, set<Id>>, tips: set<Id>, b: Id) returns (found: set<Id>)
    requires Inverse(g, children) && b in g
    requires tips <= g.Keys && forall x :: x in g ==> (x in tips <==> children[x] == {})
    ensures found == AnticoneOf(g, b)
  {
    var fut := FutureSet(g, children, b);
    ghost var anti, seen := AnticoneOf(g, b), {};
    SidesHold(g, children, b);
    assert {} + tips == tips;
    found, seen := RecAll(g, children, b, fut, {}, tips, MAX_ID, anti, {}, {});
    forall x | x in anti ensures x in found {
      AllAnticoneFound(g, children, b, fut, anti, found, seen, x);
    }
  }
}
