/** Moving the main chain to a new tip: where the chains part, which numbers
    the blocks get, and what the reorganisation leaves unchanged. */
module Reorg {
  import opened Dag
  import opened Blue
  import opened Spec
  import opened State
  import opened EditScript

  // ---------------------------------------------------------------- where the chains part

  /** `path` is the part of `b`'s chain above the first block that is on the chain of `from`. */
  ghost predicate Parts(g: Graph, from: Id, b: Id, path: seq<Id>, inter: Id)
    requires from in g && b in g
  {
    && |path| < |Chain(g, b)| && path == Chain(g, b)[..|path|]
    && inter == Chain(g, b)[|path|] && inter in Chain(g, from)
    && forall j :: 0 <= j < |path| ==> path[j] !in Chain(g, from)
  }

  /** Follows main parents until a block of the main-chain bucket is met.  The
      search cannot fail: block 0 is on every chain. */
  method GetIntersectionPath(g: Graph, b: Id, main: set<Id>, ghost from: Id) returns (inter: Id, path: seq<Id>)
    requires b in g && from in g && forall x :: x in main <==> x in Chain(g, from)
    ensures inter != MAX_ID && Parts(g, from, b, path, inter)
  {
    path := [];
    inter := MAX_ID;
    var cur := b;
    GenesisInChain(g, from);
    assert Chain(g, b)[..0] == [];
    while true
      invariant cur in g && |path| < |Chain(g, b)|
      invariant path == Chain(g, b)[..|path|] && Chain(g, b)[|path|] == cur
      invariant forall j :: 0 <= j < |path| ==> path[j] !in Chain(g, from)
      decreases cur
    {
      if cur in main {
        inter := cur;
        break;
      }
      ChainNext(g, b, |path|);
      path := path + [cur];
      cur := g[cur].mainParent;
    }
  }

  lemma ChainNext(g: Graph, b: Id, i: nat)
    requires b in g && i < |Chain(g, b)| && Chain(g, b)[i] != 0
    ensures var c := Chain(g, b)[i];
      && c in g && i + 1 < |Chain(g, b)| && Chain(g, b)[i + 1] == g[c].mainParent
      && Chain(g, b)[..i + 1] == Chain(g, b)[..i] + [c]
  {
    ChainAt(g, b, i);
  }

  /** Above a chain block the chain has none of the blocks below it. */
  lemma UpperIsApart(g: Graph, b: Id, i: nat)
    requires b in g && i < |Chain(g, b)| && Chain(g, b)[i] in g
    ensures Elems(Chain(g, b)[..i]) !! Elems(Chain(g, Chain(g, b)[i]))
  {
    var chain, low := Chain(g, b), Chain(g, Chain(g, b)[i]);
    ChainSuffix(g, b, i);
    ChainDescends(g, b);
    forall x | x in low ensures x !in chain[..i] {
      var j :| 0 <= j < |low| && low[j] == x;
      assert chain[i + j] == chain[i..][j] == x;
    }
  }

  /** The main-chain bucket after the old branch is taken out and the new one put in. */
  lemma ChainSwap(g: Graph, from: Id, b: Id, path: seq<Id>, inter: Id, up: nat)
    requires from in g && b in g && Parts(g, from, b, path, inter)
    requires up < |Chain(g, from)| && Chain(g, from)[up] == inter
    ensures Elems(path) !! Elems(Chain(g, from)[..up])
    ensures Elems(Chain(g, from)) - Elems(Chain(g, from)[..up]) + Elems(path) == Elems(Chain(g, b))
  {
    var oc, bc := Chain(g, from), Chain(g, b);
    ChainSuffix(g, from, up);
    ChainSuffix(g, b, |path|);
    assert oc == oc[..up] + oc[up..] && bc == path + bc[|path|..];
    forall x | x in Elems(path) ensures x !in Elems(oc[..up]) && x in Elems(bc) {
      var j :| 0 <= j < |path| && path[j] == x;
      assert bc[j] == x;
    }
    UpperIsApart(g, from, up);
    ElemsConcat(oc[..up], Chain(g, inter));
    ElemsConcat(path, Chain(g, inter));
    SwapSets(Elems(oc[..up]), Elems(Chain(g, inter)), Elems(path));
  }

  /** Marks the blocks of the old branch, from its tip down to the intersection. */
  method RollBackMainChain(g: Graph, from: Id, inter: Id) returns (removed: set<Id>, ghost up: nat)
    requires from in g && inter in Chain(g, from)
    ensures up < |Chain(g, from)| && Chain(g, from)[up] == inter && removed == Elems(Chain(g, from)[..up])
  {
    removed, up := {}, 0;
    var cur := from;
    ghost var i :| 0 <= i < |Chain(g, from)| && Chain(g, from)[i] == inter;
    assert Chain(g, from)[..0] == [];
    while cur != inter
      invariant cur in g && up <= i && Chain(g, from)[up] == cur
      invariant removed == Elems(Chain(g, from)[..up])
      decreases cur
    {
      ChainDescends(g, from);
      ChainNext(g, from, up);
      ElemsAre(Chain(g, from)[..up + 1], Elems(Chain(g, from)[..up]) + {cur});
      removed := removed + {cur};
      cur, up := g[cur].mainParent, up + 1;
    }
  }

  lemma ElemsConcat(s: seq<Id>, t: seq<Id>)
    ensures Elems(s + t) == Elems(s) + Elems(t)
  {
    ElemsAre(s + t, Elems(s) + Elems(t));
  }

  lemma SwapSets(up: set<Id>, low: set<Id>, path: set<Id>)
    requires up !! low
    ensures up + low - up + path == path + low
  {}

  // ---------------------------------------------------------------- positions

  /** The numbers stored with a chain block are positions in the order of every tip above it. */
  lemma Position(g: Graph, k: nat, b: Id, m: Id, x: Id, line: seq<Id>, base: int)
    requires Wf(g, k) && b in g && m in Chain(g, b) && m in g && m != 0 && x in g[m].Diff()
    requires line == Order(g, k, b) && base == |Order(g, k, g[m].mainParent)| - 1
    ensures x in g[m].blue ==> 0 <= base + g[m].blue[x] < |line| && line[base + g[m].blue[x]] == x
    ensures x in g[m].red ==> 0 <= base + g[m].red[x] < |line| && line[base + g[m].red[x]] == x
  {
    var low, mid := Order(g, k, g[m].mainParent), DiffOrd(g, k, m);
    NumberFacts(g, k, m);
    assert x in Elems(mid) by { DiffOrdIsPermutation(g, k, m); }
    var i :| 0 <= i < |mid| && mid[i] == x;
    OrderPrefix(g, k, b, m);
    var pos := |low| + i;
    ThreeParts(low, mid, m, pos);
    assert line[pos] == x;
    assert x in g[m].blue ==> base + g[m].blue[x] == pos;
    assert x in g[m].red ==> base + g[m].red[x] == pos;
  }

  lemma OwnPosition(g: Graph, k: nat, b: Id, m: Id, line: seq<Id>, next: int)
    requires Wf(g, k) && b in g && m in Chain(g, b) && m in g && m != 0
    requires line == Order(g, k, b)
    requires next == |Order(g, k, g[m].mainParent)| - 1 + |g[m].blue| + |g[m].red| + 1
    ensures next == |Order(g, k, m)| - 1 && 0 <= next < |line| && line[next] == m
  {
    DiffOrdIsPermutation(g, k, m);
    OrderIsCone(g, k, m);
    OrderPrefix(g, k, b, m);
    assert |Order(g, k, m)| - 1 == next;
  }

  // ---------------------------------------------------------------- re-numbering

  /** The maps a re-numbering writes: order numbers, pending index entries,
      former numbers for the way back, and the blocks to be written again. */
  datatype Book = Book(orders: map<Id, nat>, index: map<nat, Id>, saved: map<Id, nat>, touched: set<Id>)

  function Renumber(book: Book, x: Id, i: nat): Book
    requires x in book.orders
  {
    Book(book.orders[x := i], book.index[i := x], book.saved[x := book.orders[x]], book.touched + {x})
  }

  /** The blocks of `done` have been given their positions in `line`; their
      former numbers are saved; nothing else has changed since `start`. */
  ghost predicate Renumbered(line: seq<Id>, start: Book, book: Book, done: set<Id>)
  {
    && book.orders.Keys == start.orders.Keys && book.saved.Keys == done && done <= start.orders.Keys
    && (forall i :: 0 <= i < |line| && line[i] in done ==>
          line[i] in book.orders && book.orders[line[i]] == i && i in book.index)
    && (forall i :: i in book.index ==> i < |line| && line[i] in done && book.index[i] == line[i])
    && (forall x :: x in start.orders && x !in done ==> book.orders[x] == start.orders[x])
    && (forall x :: x in done ==> book.saved[x] == start.orders[x])
    && book.touched == start.touched + done
  }

  lemma RenumberStep(line: seq<Id>, start: Book, book: Book, done: set<Id>, x: Id, i: nat)
    requires Renumbered(line, start, book, done) && NoDup(line)
    requires i < |line| && line[i] == x && x !in done && x in start.orders
    ensures Renumbered(line, start, Renumber(book, x, i), done + {x})
  {}

  /** The numbers of `part`, counted from `base`, are positions in `line`. */
  ghost predicate Placed(line: seq<Id>, part: map<Id, nat>, base: int)
  {
    forall x :: x in part ==> 0 <= base + part[x] < |line| && line[base + part[x]] == x
  }

  lemma PartsPlaced(g: Graph, k: nat, b: Id, m: Id, line: seq<Id>, base: int)
    requires Wf(g, k) && b in g && m in Chain(g, b) && m in g && m != 0
    requires line == Order(g, k, b) && base == |Order(g, k, g[m].mainParent)| - 1
    ensures Placed(line, g[m].blue, base) && Placed(line, g[m].red, base)
  {
    forall x | x in g[m].Diff()
      ensures x in g[m].blue ==> 0 <= base + g[m].blue[x] < |line| && line[base + g[m].blue[x]] == x
      ensures x in g[m].red ==> 0 <= base + g[m].red[x] < |line| && line[base + g[m].red[x]] == x
    {
      Position(g, k, b, m, x, line, base);
    }
  }

  /** Numbers one half of a diff-anticone, in any order. */
  method RenumberPart(book0: Book, part: map<Id, nat>, base: nat, ghost line: seq<Id>, ghost start: Book,
                      ghost done: set<Id>)
    returns (book: Book)
    requires NoDup(line) && Renumbered(line, start, book0, done) && Placed(line, part, base)
    requires part.Keys !! done && part.Keys <= start.orders.Keys
    ensures Renumbered(line, start, book, done + part.Keys)
  {
    book := book0;
    var rest := part.Keys;
    ghost var now := done;
    while rest != {}
      invariant rest <= part.Keys && now == done + (part.Keys - rest)
      invariant Renumbered(line, start, book, now)
    {
      var x :| x in rest;
      var order := base + part[x];
      assert order < |line| && line[order] == x;
      MoveOver(done, part.Keys, rest, x);
      RenumberStep(line, start, book, now, x, order);
      book := Renumber(book, x, order);
      rest, now := rest - {x}, now + {x};
    }
    assert part.Keys - rest == part.Keys;
  }

  lemma MoveOver(done: set<Id>, keys: set<Id>, rest: set<Id>, x: Id)
    requires x in rest && rest <= keys && keys !! done
    ensures x !in done + (keys - rest) && done + (keys - rest) + {x} == done + (keys - (rest - {x}))
  {}

  /** Numbers one block of the main chain and its diff-anticone. */
  method RenumberNode(book0: Book, m: Id, n: Node, base: nat, next: nat, ghost line: seq<Id>, ghost start: Book,
                      ghost done: set<Id>)
    returns (book: Book)
    requires NoDup(line) && Renumbered(line, start, book0, done)
    requires Placed(line, n.blue, base) && Placed(line, n.red, base) && next < |line| && line[next] == m
    requires m in start.orders && n.Diff() <= start.orders.Keys
    requires m !in done && m !in n.Diff() && n.Diff() !! done && n.blue.Keys !! n.red.Keys
    ensures Renumbered(line, start, book, done + n.Diff() + {m})
  {
    NodeSets(done, m, n.blue.Keys, n.red.Keys);
    RenumberStep(line, start, book0, done, m, next);
    book := Renumber(book0, m, next);
    book := RenumberPart(book, n.blue, base, line, start, done + {m});
    book := RenumberPart(book, n.red, base, line, start, done + {m} + n.blue.Keys);
  }

  lemma NodeSets(done: set<Id>, m: Id, blue: set<Id>, red: set<Id>)
    requires m !in done && m !in blue + red && blue + red !! done && blue !! red
    ensures blue !! done + {m} && red !! done + {m} + blue
    ensures done + {m} + blue + red == done + (blue + red) + {m}
  {}

  method RenumberBlock(g: Graph, k: nat, book0: Book, m: Id, base: nat, ghost inter: Id, ghost b: Id, ghost start: Book)
    returns (book: Book, next: nat)
    requires Wf(g, k) && b in g && m in g && m != 0 && m in Chain(g, b)
    requires inter in g && inter in Chain(g, g[m].mainParent) && start.orders.Keys == g.Keys
    requires base == |Order(g, k, g[m].mainParent)| - 1
    requires Renumbered(Order(g, k, b), start, book0, Cone(g, g[m].mainParent) - Cone(g, inter))
    ensures Renumbered(Order(g, k, b), start, book, Cone(g, m) - Cone(g, inter))
    ensures next == |Order(g, k, m)| - 1
  {
    ghost var done, line := Cone(g, g[m].mainParent) - Cone(g, inter), Order(g, k, b);
    assert NoDup(line) by { OrderIsCone(g, k, b); }
    next := base + |g[m].blue| + |g[m].red| + 1;
    OwnPosition(g, k, b, m, line, next);
    BetweenStep(g, k, inter, m);
    DiffFacts(g, k, m);
    PartsPlaced(g, k, b, m, line, base);
    book := RenumberNode(book0, m, g[m], base, next, line, start, done);
  }

  /** Numbers the new part of the main chain from the intersection up. */
  method UpdateMainOrder(g: Graph, k: nat, book0: Book, path: seq<Id>, inter: Id, ghost b: Id)
    returns (book: Book)
    requires Wf(g, k) && b in g && inter in g
    requires |path| < |Chain(g, b)| && path == Chain(g, b)[..|path|] && inter == Chain(g, b)[|path|]
    requires book0.orders.Keys == g.Keys && book0.index == map[] && book0.saved == map[]
    requires book0.orders[inter] == |Order(g, k, inter)| - 1
    ensures Renumbered(Order(g, k, b), book0, book, Cone(g, b) - Cone(g, inter))
  {
    book := book0;
    var base, i := book0.orders[inter], |path|;
    ghost var low, chain := inter, Chain(g, b);
    assert chain[0] == b;
    assert Cone(g, inter) - Cone(g, inter) == {};
    while i > 0
      invariant 0 <= i <= |path| && low == chain[i]
      invariant low in g && inter in Chain(g, low)
      invariant base == |Order(g, k, low)| - 1
      invariant Renumbered(Order(g, k, b), book0, book, Cone(g, low) - Cone(g, inter))
    {
      PathStep(g, b, path, i, inter);
      var m := path[i - 1];
      assert g[m].mainParent == low;
      i := i - 1;
      assert m == chain[i] && inter in Chain(g, m);
      book, base := RenumberBlock(g, k, book, m, base, inter, b, book0);
      low := m;
    }
  }

  lemma PathStep(g: Graph, b: Id, path: seq<Id>, i: nat, inter: Id)
    requires b in g && 0 < i <= |path| < |Chain(g, b)| && path == Chain(g, b)[..|path|]
    requires Chain(g, b)[i] in g && inter in Chain(g, Chain(g, b)[i])
    ensures var m := path[i - 1];
      && m == Chain(g, b)[i - 1] && m in g && m != 0 && m in Chain(g, b) && g[m].mainParent == Chain(g, b)[i]
      && inter in Chain(g, m)
  {
    ChainDescends(g, b);
    assert Chain(g, b)[i] < Chain(g, b)[i - 1];
    ChainNext(g, b, i - 1);
  }

  /** A cone in steps of the chain: what lies between the intersection and a path block. */
  lemma BetweenStep(g: Graph, k: nat, inter: Id, m: Id)
    requires Wf(g, k) && inter in g && m in g && m != 0 && inter in Chain(g, g[m].mainParent)
    ensures Cone(g, m) - Cone(g, inter) == Cone(g, g[m].mainParent) - Cone(g, inter) + g[m].Diff() + {m}
    ensures g[m].Diff() !! Cone(g, g[m].mainParent) - Cone(g, inter)
    ensures m !in Cone(g, g[m].mainParent) - Cone(g, inter) && m !in g[m].Diff()
  {
    ConeSplit(g, k, m);
    ChainInCone(g, g[m].mainParent, inter);
    ConeTransitive(g, g[m].mainParent, inter);
    BetweenSets(Cone(g, m), Cone(g, g[m].mainParent), g[m].Diff(), m, Cone(g, inter));
  }

  lemma BetweenSets(cone: set<Id>, low: set<Id>, diff: set<Id>, m: Id, base: set<Id>)
    requires cone == low + diff + {m} && diff !! low && m !in low && base <= low
    ensures cone - base == low - base + diff + {m} && diff !! low - base && m !in low - base
  {}

  /** The two orders agree on what the intersection orders. */
  lemma SharedPart(g: Graph, k: nat, from: Id, b: Id, inter: Id, i: nat)
    requires Wf(g, k) && from in g && b in g && inter in g && inter in Chain(g, from) && inter in Chain(g, b)
    requires i < |Order(g, k, b)| && Order(g, k, b)[i] in Cone(g, inter)
    ensures i < |Order(g, k, from)| && Order(g, k, from)[i] == Order(g, k, b)[i]
  {
    var line, low := Order(g, k, b), Order(g, k, inter);
    OrderIsCone(g, k, b);
    OrderIsCone(g, k, inter);
    OrderPrefix(g, k, b, inter);
    OrderPrefix(g, k, from, inter);
    assert line[i] in Elems(low);
    var j :| 0 <= j < |low| && low[j] == line[i];
    assert line[j] == line[i];
  }

  lemma OnLine(g: Graph, k: nat, b: Id, i: nat)
    requires Wf(g, k) && b in g && i < |Order(g, k, b)|
    ensures Order(g, k, b)[i] in Cone(g, b) && Order(g, k, b)[i] in g
  {
    OrderIsCone(g, k, b);
    assert Order(g, k, b)[i] in Elems(Order(g, k, b));
    ConeBounds(g, b);
  }

  /** Once everything between the intersection and the new tip is re-numbered, the
      new tip's order is numbered from 0 and the index read over the old one holds it. */
  lemma NumberingAfter(g: Graph, k: nat, from: Id, b: Id, inter: Id, start: Book, book: Book, stored: map<nat, Id>)
    requires Wf(g, k) && from in g && b in g && inter in g && inter in Chain(g, from) && inter in Chain(g, b)
    requires start.orders.Keys == g.Keys
    requires forall i :: 0 <= i < |Order(g, k, from)| ==>
      Order(g, k, from)[i] in start.orders && start.orders[Order(g, k, from)[i]] == i
    requires IndexHolds(Order(g, k, from), stored)
    requires Renumbered(Order(g, k, b), start, book, Cone(g, b) - Cone(g, inter))
    ensures forall i :: 0 <= i < |Order(g, k, b)| ==>
      Order(g, k, b)[i] in book.orders && book.orders[Order(g, k, b)[i]] == i
    ensures IndexHolds(Order(g, k, b), stored + book.index)
  {
    var line := Order(g, k, b);
    forall i | 0 <= i < |line|
      ensures line[i] in book.orders && book.orders[line[i]] == i
      ensures i in stored + book.index && (stored + book.index)[i] == line[i]
    {
      OnLine(g, k, b, i);
      if line[i] in Cone(g, inter) {
        SharedPart(g, k, from, b, inter, i);
        assert i !in book.index;
      }
    }
  }

  // ---------------------------------------------------------------- the reorganisation

  /** The block at an order number: pending entries first, then the bucket. */
  function Lookup(pending: map<nat, Id>, stored: map<nat, Id>, order: nat): Id {
    if order >= MAX_ORDER then MAX_ID
    else if order in pending then pending[order]
    else if order in stored then stored[order]
    else MAX_ID
  }

  /** The numbering and the index hold the order of `t`. */
  ghost predicate Holds(g: Graph, k: nat, t: Id, orders: map<Id, nat>, pending: map<nat, Id>, stored: map<nat, Id>)
    requires Wf(g, k) && t in g
  {
    && (forall i :: 0 <= i < |Order(g, k, t)| ==> Order(g, k, t)[i] in orders && orders[Order(g, k, t)[i]] == i)
    && IndexHolds(Order(g, k, t), stored + pending)
  }

  lemma LineBounds(g: Graph, k: nat, t: Id)
    requires Wf(g, k) && t in g
    ensures 0 < |Order(g, k, t)| <= MAX_ORDER && Order(g, k, t)[|Order(g, k, t)| - 1] == t
    ensures forall i :: 0 <= i < |Order(g, k, t)| ==> Order(g, k, t)[i] in g && Order(g, k, t)[i] != MAX_ID
  {
    OrderIsShort(g, k, t);
    OrderIsCone(g, k, t);
    forall i | 0 <= i < |Order(g, k, t)| ensures Order(g, k, t)[i] in g {
      OnLine(g, k, t, i);
    }
  }

  /** Reads the entries of the order from `first` on back from the index. */
  method OldOrders(stored: map<nat, Id>, first: nat, last: nat, ghost line: seq<Id>) returns (olds: seq<OldEntry>)
    requires IndexHolds(line, stored) && first <= |line| && last + 1 == |line| && |line| <= MAX_ORDER
    requires forall i :: 0 <= i < |line| ==> line[i] != MAX_ID
    ensures olds == Entries(line, first)
  {
    olds := [];
    var i := first;
    while i <= last
      invariant first <= i <= |line| && olds == Entries(line[..i], first)
    {
      var x := Lookup(map[], stored, i);
      assert x == line[i] && x != MAX_ID;  // never "can't find block in order"
      assert line[..i + 1] == line[..i] + [line[i]];
      olds := olds + [OldEntry(x, i)];
      i := i + 1;
    }
    assert line[..i] == line;
  }

  lemma Crossing(g: Graph, k: nat, from: Id, b: Id, inter: Id, orders: map<Id, nat>)
    requires Wf(g, k) && from in g && b in g && inter in Chain(g, from) && inter in Chain(g, b)
    requires forall i :: 0 <= i < |Order(g, k, from)| ==>
      Order(g, k, from)[i] in orders && orders[Order(g, k, from)[i]] == i
    ensures inter in g && inter in orders && from in orders
    ensures orders[inter] == |Order(g, k, inter)| - 1 && orders[from] == |Order(g, k, from)| - 1
    ensures |Order(g, k, inter)| <= |Order(g, k, from)|
  {
    OrderPrefix(g, k, from, inter);
    LineBounds(g, k, inter);
    LineBounds(g, k, from);
    var last := |Order(g, k, inter)| - 1;
    assert Order(g, k, from)[last] == inter;
  }

  /** The first position that a new tip numbers beyond the intersection. */
  lemma FirstNew(g: Graph, k: nat, b: Id, inter: Id)
    requires Wf(g, k) && b in g && inter in Chain(g, b) && inter != b
    ensures inter in g && |Order(g, k, inter)| < |Order(g, k, b)| <= MAX_ORDER
    ensures Order(g, k, b)[|Order(g, k, inter)|] in Cone(g, b) - Cone(g, inter)
  {
    var low, line := Order(g, k, inter), Order(g, k, b);
    OrderPrefix(g, k, b, inter);
    OrderIsShort(g, k, b);
    OrderIsCone(g, k, b);
    OrderIsCone(g, k, inter);
    assert low != line;
    NextAfter(line, low);
  }

  lemma NextAfter(line: seq<Id>, low: seq<Id>)
    requires low <= line && low != line && NoDup(line)
    ensures |low| < |line| && line[|low|] in Elems(line) && line[|low|] !in Elems(low)
  {
    assert forall j :: 0 <= j < |low| ==> low[j] == line[j] && line[j] != line[|low|];
  }

  /** The main-chain bucket after the pending marks have been applied. */
  ghost function ChainAfter(stored: set<Id>, marks: map<Id, bool>): set<Id>
  {
    stored - (set c | c in marks && !marks[c]) + (set c | c in marks && marks[c])
  }

  lemma ChainMarks(stored: set<Id>, removed: set<Id>, path: seq<Id>)
    requires Elems(path) !! removed
    ensures ChainAfter(stored, (map c | c in removed :: false) + (map c | c in path :: true))
      == stored - removed + Elems(path)
  {
    var marks := (map c | c in removed :: false) + (map c | c in path :: true);
    assert forall c :: c in marks && !marks[c] <==> c in removed;
    assert forall c :: c in marks && marks[c] <==> c in Elems(path);
  }

  /** The main chain has moved from `from` to `b`, with the bookkeeping to show for it. */
  ghost predicate Moved(g: Graph, k: nat, from: Id, b: Id, inter: Id, start: Book, book: Book,
                        marks: map<Id, bool>, olds: seq<OldEntry>, changed: Id)
    requires Wf(g, k) && from in g && b in g
  {
    && inter in g && inter in Chain(g, from) && inter in Chain(g, b)
    && Renumbered(Order(g, k, b), start, book, Cone(g, b) - Cone(g, inter))
    && ChainAfter(Elems(Chain(g, from)), marks) == Elems(Chain(g, b))
    && |Order(g, k, inter)| <= |Order(g, k, from)| && olds == Entries(Order(g, k, from), |Order(g, k, inter)|)
    && |Order(g, k, inter)| < |Order(g, k, b)| && changed == Order(g, k, b)[|Order(g, k, inter)|]
  }

  /** The pending marks that turn the old main chain into the new one. */
  method MarkChain(g: Graph, from: Id, b: Id, path: seq<Id>, inter: Id) returns (marks: map<Id, bool>)
    requires from in g && b in g && Parts(g, from, b, path, inter)
    ensures ChainAfter(Elems(Chain(g, from)), marks) == Elems(Chain(g, b))
  {
    var removed;
    ghost var up;
    removed, up := RollBackMainChain(g, from, inter);
    ChainSwap(g, from, b, path, inter, up);
    ChainMarks(Elems(Chain(g, from)), removed, path);
    marks := (map c | c in removed :: false) + (map c | c in path :: true);
  }

  /** Re-numbers from the intersection on and reports what changes. */
  method MoveOrder(g: Graph, k: nat, from: Id, b: Id, path: seq<Id>, inter: Id, start: Book, stored: map<nat, Id>)
    returns (book: Book, olds: seq<OldEntry>, changed: Id)
    requires Wf(g, k) && from in g && b in g && inter in g && inter != b
    requires inter in Chain(g, from) && inter in Chain(g, b)
    requires |path| < |Chain(g, b)| && path == Chain(g, b)[..|path|] && inter == Chain(g, b)[|path|]
    requires start.orders.Keys == g.Keys && start.index == map[] && start.saved == map[]
    requires Holds(g, k, from, start.orders, map[], stored)
    ensures Renumbered(Order(g, k, b), start, book, Cone(g, b) - Cone(g, inter))
    ensures |Order(g, k, inter)| <= |Order(g, k, from)| && olds == Entries(Order(g, k, from), |Order(g, k, inter)|)
    ensures |Order(g, k, inter)| < |Order(g, k, b)| && changed == Order(g, k, b)[|Order(g, k, inter)|]
  {
    Crossing(g, k, from, b, inter, start.orders);
    LineBounds(g, k, from);
    assert stored + map[] == stored;
    var first := start.orders[inter] + 1;
    assert first == |Order(g, k, inter)|;
    olds := OldOrders(stored, first, start.orders[from], Order(g, k, from));
    book := UpdateMainOrder(g, k, start, path, inter, b);
    ChangedIs(g, k, b, inter, start, book, stored);
    first := book.orders[inter] + 1;
    assert first == |Order(g, k, inter)|;
    changed := Lookup(book.index, stored, first);
  }

  /** Moves the main chain from `from` to `b`: finds where the chains part, collects the
      old entries, marks the removed and added chain blocks and re-numbers. */
  method Reorganise(g: Graph, k: nat, from: Id, b: Id, main: set<Id>, start: Book, stored: map<nat, Id>)
    returns (book: Book, marks: map<Id, bool>, olds: seq<OldEntry>, changed: Id, ghost inter: Id)
    requires Wf(g, k) && from in g && b in g && b !in Chain(g, from) && main == Elems(Chain(g, from))
    requires start.orders.Keys == g.Keys && start.index == map[] && start.saved == map[]
    requires Holds(g, k, from, start.orders, map[], stored)
    ensures Moved(g, k, from, b, inter, start, book, marks, olds, changed)
  {
    var meet, path := GetIntersectionPath(g, b, main, from);
    assert meet != MAX_ID;  // never "can't find intersection"
    PathEnds(g, from, b, path, meet);
    marks := MarkChain(g, from, b, path, meet);
    book, olds, changed := MoveOrder(g, k, from, b, path, meet, start, stored);
    inter := meet;
  }

  lemma PathEnds(g: Graph, from: Id, b: Id, path: seq<Id>, inter: Id)
    requires from in g && b in g && Parts(g, from, b, path, inter) && b !in Chain(g, from)
    ensures inter in Chain(g, b) && inter != b && inter in g
  {
    ChainInCone(g, from, inter);
  }

  lemma ChangedIs(g: Graph, k: nat, b: Id, inter: Id, start: Book, book: Book, stored: map<nat, Id>)
    requires Wf(g, k) && b in g && inter in g && inter in Chain(g, b) && inter != b
    requires start.orders.Keys == g.Keys && start.orders[inter] == |Order(g, k, inter)| - 1
    requires Renumbered(Order(g, k, b), start, book, Cone(g, b) - Cone(g, inter))
    ensures inter in book.orders && book.orders[inter] == |Order(g, k, inter)| - 1
    ensures |Order(g, k, inter)| < |Order(g, k, b)|
    ensures Lookup(book.index, stored, |Order(g, k, inter)|) == Order(g, k, b)[|Order(g, k, inter)|]
  {
    FirstNew(g, k, b, inter);
    ConeBounds(g, inter);
  }
}
