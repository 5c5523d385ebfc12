/** What happens to the order when a parent list slips through that has a parent in the past of
    the main parent.  `core/blockchain/process.go` lets blocks in that skip the check of the main
    parent, and the four tests of the DAG do not catch such a list. */
module Unclear {
  import opened Dag
  import opened Blue
  import opened DiffOrder
  import opened Spec
  import opened Colour
  import opened State
  import opened Reorg

  /** Places that stand for everything below: ids that no block has. */
  ghost function Nobody(above: Id, n: nat): (s: seq<Id>)
    ensures |s| == n && forall i :: 0 <= i < n ==> s[i] == above + 1 + i
  {
    seq(n, i requires 0 <= i < n => above + 1 + i)
  }

  /** The positions that the numbering of `b` and its blocks counts from. */
  ghost function Places(below: nat, order: seq<Id>, b: Id): seq<Id> {
    Nobody(b, below) + order + [b]
  }

  lemma PlacesAreDistinct(below: nat, order: seq<Id>, b: Id)
    requires NoDup(order) && forall x :: x in order ==> x < b
    ensures NoDup(Places(below, order, b)) && |Places(below, order, b)| == below + |order| + 1
    ensures Places(below, order, b)[below + |order|] == b
  {
    var line := Places(below, order, b);
    forall i | 0 <= i < |line|
      ensures line[i] == if i < below then b + 1 + i else if i < below + |order| then order[i - below] else b
    {}
    assert forall i :: 0 <= i < |order| ==> order[i] in order;
  }

  lemma PartIsPlaced(below: nat, order: seq<Id>, b: Id, blue: map<Id, nat>, red: map<Id, nat>)
    requires Numbered(blue, red, order) && below > 0
    ensures Placed(Places(below, order, b), blue, below - 1) && Placed(Places(below, order, b), red, below - 1)
  {
    var line := Places(below, order, b);
    forall x | x in blue || x in red
      ensures x in blue ==> 0 <= below - 1 + blue[x] < |line| && line[below - 1 + blue[x]] == x
      ensures x in red ==> 0 <= below - 1 + red[x] < |line| && line[below - 1 + red[x]] == x
    {
      assert x in Elems(order);
      var i :| 0 <= i < |order| && order[i] == x;
      assert line[below + i] == x;
    }
  }

  /** The numbering of a new main tip that sits on the old one and lists `p` from below it: `p` gets a
      second number and keeps its old entry in the index, so that the index lists it twice. */
  method NumberedTwice(g: Graph, k: nat, b: Id, n: Node, p: Id, start: Book, stored: map<nat, Id>) returns (book: Book)
    requires Wf(g, k) && IsNew(g, b, n.hash) && n.parents <= g.Keys && n.mainParent in n.parents && Coloured(g, k, n)
    requires p in n.parents && p != n.mainParent && p in Cone(g, n.mainParent)
    requires start.orders.Keys == g.Keys + {b} && start.index == map[] && start.saved == map[]
    requires Numbering(Order(g, k, n.mainParent), start.orders) && IndexHolds(Order(g, k, n.mainParent), stored)
    ensures p in start.orders && p in book.orders && start.orders[p] < |Order(g, k, n.mainParent)| <= book.orders[p]
    ensures var index := stored + book.index;
      && start.orders[p] in index && index[start.orders[p]] == p
      && book.orders[p] in index && index[book.orders[p]] == p
  {
    ghost var order := DiffSeq(g, n.parents, n.mainParent, n.blue.Keys, n.Diff());
    ghost var low := Order(g, k, n.mainParent);
    BothListed(g, k, n, p);
    LastNumber(low, start.orders, n.mainParent);
    var base := start.orders[n.mainParent];
    var next := base + |n.blue| + |n.red| + 1;
    UnclearPlaces(g, k, n, b, order, |low|, base, next);
    book := NumberOnTop(n, b, p, base, next, start, stored, low, order);
  }

  lemma UnclearPlaces(g: Graph, k: nat, n: Node, b: Id, order: seq<Id>, below: nat, base: nat, next: nat)
    requires Wf(g, k) && IsNew(g, b, n.hash) && n.parents <= g.Keys && n.mainParent in n.parents && Coloured(g, k, n)
    requires order == DiffSeq(g, n.parents, n.mainParent, n.blue.Keys, n.Diff())
    requires base + 1 == below && next == base + |n.blue| + |n.red| + 1
    ensures OnPlaces(n, b, order, below, base, next)
  {
    UnclearOrder(g, k, n, b, order);
    PlacesAreDistinct(below, order, b);
    PartIsPlaced(below, order, b, n.blue, n.red);
    AllBelow(order, n.Diff(), b);
  }

  /** The numbers of `n` are positions behind `below` others. */
  ghost predicate OnPlaces(n: Node, b: Id, order: seq<Id>, below: nat, base: nat, next: nat)
  {
    var line := Places(below, order, b);
    && NoDup(line) && Placed(line, n.blue, base) && Placed(line, n.red, base) && next < |line| && line[next] == b
    && Elems(order) == n.Diff() && b !in n.Diff() && (forall x :: x in n.Diff() ==> x < b) && n.blue.Keys !! n.red.Keys
  }

  lemma LastNumber(low: seq<Id>, orders: map<Id, nat>, x: Id)
    requires Numbering(low, orders) && low != [] && low[|low| - 1] == x
    ensures x in orders && orders[x] + 1 == |low|
  {}

  lemma BothListed(g: Graph, k: nat, n: Node, p: Id)
    requires Wf(g, k) && n.parents <= g.Keys && n.mainParent in n.parents && Coloured(g, k, n)
    requires p in n.parents && p != n.mainParent && p in Cone(g, n.mainParent)
    ensures p in n.Diff() && p in Order(g, k, n.mainParent)
    ensures var low := Order(g, k, n.mainParent); low != [] && low[|low| - 1] == n.mainParent
  {
    OrderIsCone(g, k, n.mainParent);
    assert p in Elems(Order(g, k, n.mainParent));
  }

  /** Numbers a block and what it brings in behind the order `low`. */
  method NumberOnTop(n: Node, b: Id, p: Id, base: nat, next: nat, start: Book, stored: map<nat, Id>,
                     ghost low: seq<Id>, ghost order: seq<Id>)
    returns (book: Book)
    requires OnPlaces(n, b, order, |low|, base, next) && p in n.Diff() && p in low
    requires b in start.orders && n.Diff() <= start.orders.Keys && start.index == map[] && start.saved == map[]
    requires Numbering(low, start.orders) && IndexHolds(low, stored)
    ensures p in start.orders && p in book.orders && start.orders[p] < |low| <= book.orders[p]
    ensures var index := stored + book.index;
      && start.orders[p] in index && index[start.orders[p]] == p
      && book.orders[p] in index && index[book.orders[p]] == p
  {
    book := NumberPlaces(n, b, base, next, start, Places(|low|, order, b));
    StillListed(low, order, b, start, book, stored, p, n.Diff());
  }

  method NumberPlaces(n: Node, b: Id, base: nat, next: nat, start: Book, ghost line: seq<Id>) returns (book: Book)
    requires NoDup(line) && Placed(line, n.blue, base) && Placed(line, n.red, base) && next < |line| && line[next] == b
    requires b in start.orders && n.Diff() <= start.orders.Keys && b !in n.Diff() && n.blue.Keys !! n.red.Keys
    requires start.index == map[] && start.saved == map[]
    ensures Renumbered(line, start, book, n.Diff() + {b})
  {
    NothingYet(line, start);
    book := RenumberNode(start, b, n, base, next, line, start, {});
    assert {} + n.Diff() + {b} == n.Diff() + {b};
  }

  lemma AllBelow(order: seq<Id>, diff: set<Id>, b: Id)
    requires Elems(order) == diff && forall x :: x in order ==> x < b
    ensures b !in diff && forall x :: x in diff ==> x < b
  {
    assert forall x :: x in Elems(order) ==> x in order;
  }

  lemma NothingYet(line: seq<Id>, start: Book)
    requires start.index == map[] && start.saved == map[]
    ensures Renumbered(line, start, start, {})
  {}

  lemma UnclearOrder(g: Graph, k: nat, n: Node, b: Id, order: seq<Id>)
    requires Wf(g, k) && IsNew(g, b, n.hash) && n.parents <= g.Keys && n.mainParent in n.parents && Coloured(g, k, n)
    requires order == DiffSeq(g, n.parents, n.mainParent, n.blue.Keys, n.Diff())
    ensures NoDup(order) && Elems(order) == n.Diff() && Numbered(n.blue, n.red, order) && |order| == |n.blue| + |n.red|
    ensures forall x :: x in order ==> x < b
  {
    DiffSeqIsTopologicalPermutation(g, n.parents, n.mainParent, n.blue.Keys, n.Diff());
    TopologicalMembers(g, n.Diff(), order);
    NoDupSize(order);
    assert |n.blue| == |n.blue.Keys| && |n.red| == |n.red.Keys|;
  }

  lemma StillListed(low: seq<Id>, order: seq<Id>, b: Id, start: Book, book: Book, stored: map<nat, Id>, p: Id,
                    diff: set<Id>)
    requires Renumbered(Places(|low|, order, b), start, book, diff + {b})
    requires Elems(order) == diff && p in diff && p in low
    requires forall x :: x in diff ==> x < b
    requires Numbering(low, start.orders) && IndexHolds(low, stored)
    ensures p in start.orders && p in book.orders && start.orders[p] < |low| <= book.orders[p]
    ensures var index := stored + book.index;
      && start.orders[p] in index && index[start.orders[p]] == p
      && book.orders[p] in index && index[book.orders[p]] == p
  {
    var line := Places(|low|, order, b);
    var i :| 0 <= i < |low| && low[i] == p;
    assert line[i] == b + 1 + i && line[i] !in diff + {b};
    assert p in order;
    var j :| 0 <= j < |order| && order[j] == p;
    assert line[|low| + j] == p;
  }
}
