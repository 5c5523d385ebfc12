/** The ordering engine: what happens to the main chain, the order and the
    diff-anticone once a coloured block has been put in. */
module Phantom {
  import opened Dag
  import opened Blue
  import opened Spec
  import opened Anticone
  import opened State
  import opened EditScript
  import opened Reorg
  import opened Transitions

  /** Every changed number is saved and every block with a changed number is to be written. */
  ghost predicate Tracked(start: Book, book: Book)
  {
    && book.orders.Keys == start.orders.Keys && book.saved.Keys <= start.orders.Keys
    && (forall x :: x in book.saved ==> book.saved[x] == start.orders[x])
    && (forall x :: x in start.orders && x !in book.saved ==> book.orders[x] == start.orders[x])
    && book.touched == start.touched + book.saved.Keys
  }

  /** Marks everything outside the main tip's closed past as unordered. */
  method PreUpdateVirtualBlock(book0: Book, diff: set<Id>, ghost start: Book) returns (book: Book)
    requires Tracked(start, book0) && diff <= book0.orders.Keys && diff !! book0.saved.Keys
    ensures Tracked(start, book) && book.index == book0.index
    ensures forall x :: x in book0.orders ==> book.orders[x] == if x in diff then MAX_ORDER else book0.orders[x]
  {
    book := book0;
    var rest := diff;
    while rest != {}
      invariant rest <= diff && rest !! book.saved.Keys
      invariant Tracked(start, book) && book.index == book0.index
      invariant forall x :: x in book0.orders ==>
        book.orders[x] == if x in diff && x !in rest then MAX_ORDER else book0.orders[x]
    {
      var x :| x in rest;
      rest := rest - {x};
      book := Book(book.orders[x := MAX_ORDER], book.index, book.saved[x := book.orders[x]], book.touched + {x});
    }
  }

  /** What updating the main chain leaves behind, whether or not the tip has moved. */
  ghost predicate Updated(g: Graph, k: nat, from: Id, tip: Id, diff: set<Id>, start: Book, book: Book,
                          marks: map<Id, bool>, stored: map<nat, Id>, olds: seq<OldEntry>, news: seq<Id>)
    requires Wf(g, k) && from in g && tip in g
  {
    && diff == g.Keys - Cone(g, tip)
    && Tracked(start, book)
    && Numbering(Order(g, k, tip), book.orders)
    && IndexHolds(Order(g, k, tip), stored + book.index)
    && ChainAfter(Elems(Chain(g, from)), marks) == Elems(Chain(g, tip))
    && Script(Order(g, k, from), Order(g, k, tip), olds, news)
  }

  /** Collects the order from the changed block to the tip, reading the index from the end. */
  method GetOrderChangeList(changed: Id, mainTip: Id, tips: set<Id>, orders: map<Id, nat>,
                            pending: map<nat, Id>, stored: map<nat, Id>, ghost line: seq<Id>, ghost first: nat)
    returns (news: seq<Id>)
    requires first < |line| <= MAX_ORDER && line[first] == changed && line[|line| - 1] == mainTip && NoDup(line)
    requires forall i :: 0 <= i < |line| ==> line[i] in orders && orders[line[i]] == i
    requires IndexHolds(line, stored + pending) && mainTip in tips
    ensures news == line[first..]
  {
    if tips == {changed} || changed == mainTip {
      assert first == |line| - 1;
      return [changed];
    }
    news := [];
    var i := orders[mainTip];
    assert orders[changed] == first && orders[changed] != MAX_ORDER;
    while true
      invariant first <= i < |line| && news == line[i + 1..]
      decreases i
    {
      var cur := Lookup(pending, stored, i);
      assert cur == line[i] && line[i..] == [cur] + line[i + 1..];
      news := [cur] + news;
      if cur == changed {
        break;
      }
      i := i - 1;
    }
  }

  /** A block that does not become the main tip. */
  method StayOnTip(g: Graph, k: nat, from: Id, b: Id, diff0: set<Id>, start: Book, ghost stored: map<nat, Id>)
    returns (diff: set<Id>, book: Book)
    requires Wf(g, k) && from in g && b in g && b !in Cone(g, from) && diff0 + {b} == g.Keys - Cone(g, from)
    requires start.orders.Keys == g.Keys && start.index == map[] && start.saved == map[]
    requires Numbering(Order(g, k, from), start.orders) && IndexHolds(Order(g, k, from), stored)
    ensures Updated(g, k, from, from, diff, start, book, map[], stored, [], [])
    ensures book.index == map[]
  {
    diff := diff0 + {b};
    book := PreUpdateVirtualBlock(start, diff, start);
    UnorderedOutside(g, k, from, start.orders);
    NothingMoved(g, k, from, start.orders, book, stored);
  }

  lemma NothingMoved(g: Graph, k: nat, t: Id, orders: map<Id, nat>, book: Book, stored: map<nat, Id>)
    requires Wf(g, k) && t in g && orders.Keys == book.orders.Keys && book.index == map[]
    requires forall x :: x in orders ==> book.orders[x] == orders[x]
    requires Numbering(Order(g, k, t), orders) && IndexHolds(Order(g, k, t), stored)
    ensures Numbering(Order(g, k, t), book.orders) && IndexHolds(Order(g, k, t), stored + book.index)
    ensures ChainAfter(Elems(Chain(g, t)), map[]) == Elems(Chain(g, t))
    ensures Script(Order(g, k, t), Order(g, k, t), [], [])
  {
    assert book.orders == orders && stored + book.index == stored;
    EmptyScript(Order(g, k, t));
  }

  lemma UnorderedOutside(g: Graph, k: nat, t: Id, orders: map<Id, nat>)
    requires Wf(g, k) && t in g && orders.Keys == g.Keys && Numbering(Order(g, k, t), orders)
    ensures forall x :: x in g && x !in Cone(g, t) ==> orders[x] == MAX_ORDER
  {
    OrderIsCone(g, k, t);
    forall x | x in g && x !in Cone(g, t) ensures orders[x] == MAX_ORDER {
      assert x !in Elems(Order(g, k, t));
    }
  }

  /** Moves the main chain and marks what the new tip does not reach as unordered. */
  method MoveMainChain(g: Graph, k: nat, children: map<Id, set<Id>>, tips: set<Id>, from: Id, b: Id,
                       main: set<Id>, start: Book, stored: map<nat, Id>)
    returns (diff: set<Id>, book: Book, marks: map<Id, bool>, olds: seq<OldEntry>, changed: Id,
             ghost inter: Id, ghost moved: Book)
    requires Wf(g, k) && Inverse(g, children) && Childless(children, tips)
    requires from in g && b in g && b !in Chain(g, from) && IsBluest(g, g.Keys, b) && main == Elems(Chain(g, from))
    requires start.orders.Keys == g.Keys && start.index == map[] && start.saved == map[]
    requires Holds(g, k, from, start.orders, map[], stored)
    ensures Moved(g, k, from, b, inter, start, moved, marks, olds, changed)
    ensures diff == g.Keys - Cone(g, b) && Tracked(start, book)
    ensures Numbering(Order(g, k, b), book.orders) && IndexHolds(Order(g, k, b), stored + book.index)
  {
    var renumbered;
    renumbered, marks, olds, changed, inter := Reorganise(g, k, from, b, main, start, stored);
    moved := renumbered;
    diff := GetAnticone(g, children, tips, b);
    BluestAnticone(g, k, b);
    RenumberedIsTracked(g, k, from, b, inter, start, moved, stored);
    book := PreUpdateVirtualBlock(renumbered, diff, start);
    NumberingWithRest(g, k, b, moved.orders, book.orders, diff);
  }

  lemma RenumberedIsTracked(g: Graph, k: nat, from: Id, b: Id, inter: Id, start: Book, moved: Book,
                            stored: map<nat, Id>)
    requires Wf(g, k) && from in g && b in g && inter in g && inter in Chain(g, from) && inter in Chain(g, b)
    requires start.orders.Keys == g.Keys && Holds(g, k, from, start.orders, map[], stored)
    requires Renumbered(Order(g, k, b), start, moved, Cone(g, b) - Cone(g, inter))
    ensures Tracked(start, moved) && g.Keys - Cone(g, b) !! moved.saved.Keys
    ensures Holds(g, k, b, moved.orders, moved.index, stored)
  {
    PlusNothing(stored);
    NumberingAfter(g, k, from, b, inter, start, moved, stored);
  }

  /** A block that becomes the main tip. */
  method MoveToTip(g: Graph, k: nat, children: map<Id, set<Id>>, tips: set<Id>, from: Id, b: Id,
                   main: set<Id>, start: Book, stored: map<nat, Id>)
    returns (diff: set<Id>, book: Book, marks: map<Id, bool>, olds: seq<OldEntry>, news: seq<Id>)
    requires Wf(g, k) && Inverse(g, children) && Childless(children, tips) && b in tips
    requires from in g && b in g && b !in Cone(g, from) && IsBluest(g, g.Keys, b) && main == Elems(Chain(g, from))
    requires start.orders.Keys == g.Keys && start.index == map[] && start.saved == map[]
    requires Numbering(Order(g, k, from), start.orders) && IndexHolds(Order(g, k, from), stored)
    ensures Updated(g, k, from, b, diff, start, book, marks, stored, olds, news)
  {
    NotOnChain(g, from, b);
    PlusNothing(stored);
    var changed;
    ghost var inter;
    ghost var moved;
    diff, book, marks, olds, changed, inter, moved := MoveMainChain(g, k, children, tips, from, b, main, start, stored);
    news := NewOrders(g, k, b, inter, changed, tips, book, stored);
    ScriptAt(g, k, from, b, inter);
  }

  lemma NotOnChain(g: Graph, from: Id, b: Id)
    requires from in g && b !in Cone(g, from)
    ensures b !in Chain(g, from)
  {
    if b in Chain(g, from) {
      ChainInCone(g, from, b);
    }
  }

  lemma PlusNothing(stored: map<nat, Id>)
    ensures stored + map[] == stored
  {}

  method NewOrders(g: Graph, k: nat, b: Id, ghost inter: Id, changed: Id, tips: set<Id>, book: Book,
                   stored: map<nat, Id>)
    returns (news: seq<Id>)
    requires Wf(g, k) && b in g && inter in g && b in tips
    requires Numbering(Order(g, k, b), book.orders) && IndexHolds(Order(g, k, b), stored + book.index)
    requires |Order(g, k, inter)| < |Order(g, k, b)| && changed == Order(g, k, b)[|Order(g, k, inter)|]
    ensures news == Order(g, k, b)[|Order(g, k, inter)|..]
  {
    LineBounds(g, k, b);
    OrderIsCone(g, k, b);
    news := GetOrderChangeList(changed, b, tips, book.orders, book.index, stored, Order(g, k, b), |Order(g, k, inter)|);
  }

  lemma NumberingWithRest(g: Graph, k: nat, b: Id, moved: map<Id, nat>, orders: map<Id, nat>, diff: set<Id>)
    requires Wf(g, k) && b in g && diff == g.Keys - Cone(g, b) && moved.Keys == g.Keys == orders.Keys
    requires forall i :: 0 <= i < |Order(g, k, b)| ==> Order(g, k, b)[i] in moved && moved[Order(g, k, b)[i]] == i
    requires forall x :: x in moved ==> orders[x] == if x in diff then MAX_ORDER else moved[x]
    ensures Numbering(Order(g, k, b), orders)
  {
    var line := Order(g, k, b);
    OrderIsCone(g, k, b);
    forall i | 0 <= i < |line| ensures line[i] in orders && orders[line[i]] == i {
      OnLine(g, k, b, i);
    }
    forall x | x in orders && x !in line ensures orders[x] == MAX_ORDER {
      assert x !in Elems(line);
    }
  }

  lemma ScriptAt(g: Graph, k: nat, from: Id, b: Id, inter: Id)
    requires Wf(g, k) && from in g && b in g && inter in Chain(g, from) && inter in Chain(g, b) && inter in g
    ensures var c := |Order(g, k, inter)|;
      && c <= |Order(g, k, from)| && c <= |Order(g, k, b)|
      && Script(Order(g, k, from), Order(g, k, b), Entries(Order(g, k, from), c), Order(g, k, b)[c..])
  {
    OrderPrefix(g, k, from, inter);
    OrderPrefix(g, k, b, inter);
    EntriesAreScript(Order(g, k, from), Order(g, k, b), Order(g, k, inter));
  }

  /** The state and the lists after the main chain has been brought up to date. */
  ghost predicate Settled(m: Mem, n: Mem, r: Mem, k: nat, start: Book, book: Book, marks: map<Id, bool>,
                          mainChain: set<Id>, index: map<nat, Id>, olds: seq<OldEntry>, news: seq<Id>)
    requires MemOk(m, k)
  {
    && MemOk(r, k) && r == n.(orders := book.orders, mainTip := r.mainTip, diffAnticone := r.diffAnticone)
    && Tracked(start, book)
    && IndexHolds(Line(r, k), index + book.index)
    && MainChain(r, k) == ChainAfter(mainChain, marks)
    && Script(Line(m, k), Line(r, k), olds, news)
  }

  lemma OldTipInNew(m: Mem, n: Mem, k: nat, b: Id)
    requires MemOk(m, k) && m.total > 0 && Inserted(m, n, k, b)
    ensures m.mainTip in n.g && b in n.g && Cone(n.g, m.mainTip) == Cone(m.g, m.mainTip) && b !in Cone(n.g, m.mainTip)
    ensures Order(n.g, k, m.mainTip) == Line(m, k) && Elems(Chain(n.g, m.mainTip)) == MainChain(m, k)
    ensures m.diffAnticone + {b} == n.g.Keys - Cone(n.g, m.mainTip)
    ensures Numbering(Line(m, k), n.orders) && 0 in n.g && n.orders.Keys == n.g.Keys
  {
    OldTipFrames(m.g, n.g, k, m.mainTip, b);
    NumberingWithUnordered(Line(m, k), m.orders, b);
    OneMoreOutside(m.g.Keys, n.g.Keys, Cone(m.g, m.mainTip), b);
  }

  lemma OldTipFrames(g: Graph, h: Graph, k: nat, t: Id, b: Id)
    requires Wf(g, k) && Wf(h, k) && Within(g, h) && t in g && b !in g
    ensures t in h && Cone(h, t) == Cone(g, t) && Cone(g, t) <= g.Keys && b !in Cone(h, t)
    ensures Order(h, k, t) == Order(g, k, t) && Chain(h, t) == Chain(g, t)
  {
    ConeFrame(g, h, t);
    OrderFrame(g, h, k, t);
    ChainFrame(g, h, t);
    ConeBounds(g, t);
  }

  /** Chooses the main tip among the tips and brings order and diff-anticone up to date. */
  method Settle(ghost m: Mem, n: Mem, k: nat, b: Id, touched: set<Id>, mainChain: set<Id>, index: map<nat, Id>)
    returns (r: Mem, book: Book, marks: map<Id, bool>, olds: seq<OldEntry>, news: seq<Id>)
    requires MemOk(m, k) && m.total > 0 && Inserted(m, n, k, b)
    requires mainChain == MainChain(m, k) && IndexHolds(Line(m, k), index)
    ensures Settled(m, n, r, k, Book(n.orders, map[], map[], touched), book, marks, mainChain, index, olds, news)
  {
    var start := Book(n.orders, map[], map[], touched);
    var t := n.mainTip;
    OldTipInNew(m, n, k, b);
    NewBlockIsTip(m.g, n.g, n.children, n.tips, b);
    var top := GetBluest(n.g, n.tips);
    BluestTip(m.g, n.g, k, n.children, n.tips, t, b, top);
    var diff;
    if top == t || !Bluer(n.g[top], n.g[t]) {
      diff, book := StayOnTip(n.g, k, t, b, n.diffAnticone, start, index);
      marks, olds, news := map[], [], [];
    } else {
      diff, book, marks, olds, news := MoveToTip(n.g, k, n.children, n.tips, t, b, mainChain, start, index);
    }
    r := n.(orders := book.orders, mainTip := top, diffAnticone := diff);
    SettledIs(m, n, r, k, b, top, start, book, marks, index, olds, news);
  }

  lemma SettledIs(m: Mem, n: Mem, r: Mem, k: nat, b: Id, top: Id, start: Book, book: Book, marks: map<Id, bool>,
                  index: map<nat, Id>, olds: seq<OldEntry>, news: seq<Id>)
    requires MemOk(m, k) && m.total > 0 && Inserted(m, n, k, b) && m.mainTip in n.g && 0 in n.g
    requires top in n.g && IsBluest(n.g, n.g.Keys, top)
    requires Order(n.g, k, m.mainTip) == Line(m, k) && Elems(Chain(n.g, m.mainTip)) == MainChain(m, k)
    requires Updated(n.g, k, m.mainTip, top, r.diffAnticone, start, book, marks, index, olds, news)
    requires start.orders == n.orders && r == n.(orders := book.orders, mainTip := top, diffAnticone := r.diffAnticone)
    ensures Settled(m, n, r, k, start, book, marks, MainChain(m, k), index, olds, news)
  {
    assert Shape(r, k);
    assert Started(r, k);
  }
}
