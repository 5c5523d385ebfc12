/** The strict total order "is bluer than" and what is built from it:
    the bluest block of a set and the list sorted from the bluest on. */
module Blue {
  import opened Dag

  /** More blue blocks first, then the higher priority, then the smaller hash. */
  predicate Bluer(a: Node, b: Node) {
    || a.blueNum > b.blueNum
    || (a.blueNum == b.blueNum &&
        (|| a.priority > b.priority
         || (a.priority == b.priority && a.hash < b.hash)))
  }

  /** The comparison handed to the sorter: `Less` puts the bluer block later. */
  predicate Less(a: Node, b: Node) {
    || a.blueNum < b.blueNum
    || (a.blueNum == b.blueNum &&
        (|| a.priority < b.priority
         || (a.priority == b.priority && a.hash > b.hash)))
  }

  /** The sorter's comparison and the chain-selection comparison are one order. */
  lemma LessIsBluerReversed(a: Node, b: Node)
    ensures Less(a, b) <==> Bluer(b, a)
  {}

  /** Two blocks with different ids can always be told apart. */
  lemma OneIsBluer(g: Graph, a: Id, b: Id)
    requires DistinctHashes(g) && a in g && b in g && a != b
    ensures Bluer(g[a], g[b]) || Bluer(g[b], g[a])
  {
    assert !SameHash(g, a, b);
  }

  ghost predicate IsBluest(g: Graph, s: set<Id>, m: Id)
    requires s <= g.Keys
  {
    m in s && forall x :: x in s && x != m ==> Bluer(g[m], g[x])
  }

  lemma BluestUnique(g: Graph, s: set<Id>, m: Id, n: Id)
    requires s <= g.Keys && IsBluest(g, s, m) && IsBluest(g, s, n)
    ensures m == n
  {}

  /** No block of the set has more blue blocks behind it; of those with as many none has a higher
      priority; of those with the same priority too none has a smaller hash. */
  lemma BluestIsTop(g: Graph, s: set<Id>, m: Id)
    requires s <= g.Keys && IsBluest(g, s, m)
    ensures forall x :: x in s ==> g[x].blueNum <= g[m].blueNum
    ensures forall x :: x in s && g[x].blueNum == g[m].blueNum ==> g[x].priority <= g[m].priority
    ensures forall x :: x in s && g[x].blueNum == g[m].blueNum && g[x].priority == g[m].priority ==>
      g[m].hash <= g[x].hash
  {}

  /** Scans a set, in any order, for its bluest block. */
  method GetBluest(g: Graph, s: set<Id>) returns (m: Id)
    requires DistinctHashes(g) && s <= g.Keys && s != {}
    ensures IsBluest(g, s, m)
    ensures forall x :: x in s ==> g[x].blueNum <= g[m].blueNum
    ensures forall x :: x in s && g[x].blueNum == g[m].blueNum ==> g[x].priority <= g[m].priority
    ensures forall x :: x in s && g[x].blueNum == g[m].blueNum && g[x].priority == g[m].priority ==>
      g[m].hash <= g[x].hash
  {
    m :| m in s;
    var rest := s - {m};
    while rest != {}
      invariant rest <= s && m in s && m !in rest
      invariant IsBluest(g, s - rest, m)
    {
      var k :| k in rest;
      OneIsBluer(g, k, m);
      rest := rest - {k};
      if Bluer(g[k], g[m]) {
        m := k;
      }
    }
    assert s - rest == s;
    BluestIsTop(g, s, m);
  }

  lemma {:induction false} BluestExists(g: Graph, s: set<Id>) returns (m: Id)
    requires DistinctHashes(g) && s <= g.Keys && s != {}
    ensures IsBluest(g, s, m)
    decreases |s|
  {
    m :| m in s;
    if s != {m} {
      var r := BluestExists(g, s - {m});
      OneIsBluer(g, r, m);
      if Bluer(g[r], g[m]) {
        m := r;
      }
    }
  }

  ghost function Bluest(g: Graph, s: set<Id>): (m: Id)
    requires DistinctHashes(g) && s <= g.Keys && s != {}
    ensures IsBluest(g, s, m)
  {
    assert exists m :: IsBluest(g, s, m) by { var m := BluestExists(g, s); }
    var m :| IsBluest(g, s, m);
    m
  }

  // ---------------------------------------------------------------- sorting

  ghost function Elems(s: seq<Id>): set<Id> { set x | x in s }

  lemma ElemsAre(s: seq<Id>, e: set<Id>)
    requires forall x :: x in s <==> x in e
    ensures Elems(s) == e
  {}

  lemma ElemsHaveAll(s: seq<Id>)
    ensures forall i :: 0 <= i < |s| ==> s[i] in Elems(s)
  {}

  lemma HeadIsMember(s: seq<Id>)
    ensures s != [] ==> s[0] in s
  {}

  lemma HeadAndTail(s: seq<Id>)
    requires s != []
    ensures s == [s[0]] + s[1..] && s[0] in s
    ensures forall x :: x in s <==> x == s[0] || x in s[1..]
  {}

  lemma LastAndInit(s: seq<Id>)
    requires s != []
    ensures s == s[..|s| - 1] + [s[|s| - 1]]
    ensures forall x :: x in s <==> x == s[|s| - 1] || x in s[..|s| - 1]
  {
    assert s == s[..|s| - 1] + [s[|s| - 1]];
  }

  ghost predicate NoDup(s: seq<Id>) { forall i, j :: 0 <= i < j < |s| ==> s[i] != s[j] }

  /** `r` lists exactly `s`, each block bluer than every later one. */
  ghost predicate SortedFrom(g: Graph, s: set<Id>, r: seq<Id>)
    requires s <= g.Keys
  {
    && Elems(r) == s
    && (forall i :: 0 <= i < |r| ==> r[i] in s)
    && (forall i, j :: 0 <= i < j < |r| ==> Bluer(g[r[i]], g[r[j]]))
  }

  ghost function Sorted(g: Graph, s: set<Id>): (r: seq<Id>)
    requires DistinctHashes(g) && s <= g.Keys
    ensures forall x :: x in r <==> x in s
    ensures forall i :: 0 <= i < |r| ==> r[i] in s
    decreases |s|
  {
    if s == {} then [] else
      var m := Bluest(g, s);
      [m] + Sorted(g, s - {m})
  }

  lemma {:induction false} SortedIsSorted(g: Graph, s: set<Id>)
    requires DistinctHashes(g) && s <= g.Keys
    ensures SortedFrom(g, s, Sorted(g, s))
    decreases |s|
  {
    if s != {} {
      var m := Bluest(g, s);
      var t := Sorted(g, s - {m});
      SortedIsSorted(g, s - {m});
      forall i, j | 0 <= i < j < |Sorted(g, s)|
        ensures Bluer(g[Sorted(g, s)[i]], g[Sorted(g, s)[j]])
      {
        if i == 0 {
          assert t[j - 1] in s - {m};
        }
      }
    }
  }

  /** Blue numbers never rise along the sorted list, among equal blue numbers priorities never rise,
      and among equal priorities hashes rise. */
  lemma SortedByFields(g: Graph, s: set<Id>, i: nat, j: nat)
    requires DistinctHashes(g) && s <= g.Keys && i < j < |Sorted(g, s)|
    ensures var a, b := g[Sorted(g, s)[i]], g[Sorted(g, s)[j]];
      && b.blueNum <= a.blueNum
      && (b.blueNum == a.blueNum ==> b.priority <= a.priority)
      && (b.blueNum == a.blueNum && b.priority == a.priority ==> a.hash < b.hash)
  {
    SortedIsSorted(g, s);
  }

  /** There is one sorted list, so neither the sorting algorithm nor the order
      in which the set is enumerated can be seen in the result. */
  lemma {:induction false} SortedUnique(g: Graph, s: set<Id>, r: seq<Id>)
    requires DistinctHashes(g) && s <= g.Keys && SortedFrom(g, s, r)
    ensures r == Sorted(g, s)
    decreases |r|
  {
    if r == [] {
      assert Elems(r) == {};
    } else {
      assert r[0] in s;
      var m := Bluest(g, s);
      assert m in Elems(r);
      var i :| 0 <= i < |r| && r[i] == m;
      assert i == 0;
      var t := r[1..];
      assert r == [m] + t;
      assert m !in t;
      assert forall x :: x in r <==> x == m || x in t;
      assert Elems(t) == s - {m};
      SortedUnique(g, s - {m}, t);
    }
  }

  lemma SortedHead(g: Graph, s: set<Id>, m: Id, pre: seq<Id>)
    requires DistinctHashes(g) && s <= g.Keys && IsBluest(g, s, m)
    ensures pre + Sorted(g, s) == (pre + [m]) + Sorted(g, s - {m})
  {
    BluestUnique(g, s, m, Bluest(g, s));
  }

  /** Selection of the bluest remaining block until none is left. */
  method SortPriorityList(g: Graph, s: set<Id>) returns (r: seq<Id>)
    requires DistinctHashes(g) && s <= g.Keys
    ensures r == Sorted(g, s)
  {
    r := [];
    var rest := s;
    while rest != {}
      invariant rest <= s
      invariant r + Sorted(g, rest) == Sorted(g, s)
    {
      var m := GetBluest(g, rest);
      SortedHead(g, rest, m, r);
      r, rest := r + [m], rest - {m};
    }
  }

  lemma {:induction false} SortedFrame(g: Graph, h: Graph, s: set<Id>)
    requires DistinctHashes(g) && DistinctHashes(h) && Within(g, h) && s <= g.Keys
    ensures Sorted(g, s) == Sorted(h, s)
  {
    SortedIsSorted(g, s);
    SortedUnique(h, s, Sorted(g, s));
  }
}
