/** The bytes of one entry of the block index. */
module Codec {

  type Byte = x: nat | x < 256

  const HASH_SIZE: nat := 32

  /** What is stored of a block. */
  datatype BlockRecord = BlockRecord(
    id: nat, hash: seq<Byte>, parents: set<nat>, children: set<nat>, mainParent: nat, weight: nat,
    order: nat, layer: nat, height: nat, status: nat,
    blueNum: nat, blue: map<nat, nat>, red: map<nat, nat>)

  /** A value and the bytes behind it, or the end of the data came too early. */
  datatype Read<+T> = Short | Got(value: T, rest: seq<Byte>)
  {
    predicate IsFailure() { Short? }
    function PropagateFailure(): Read<BlockRecord> { Short }
    function Extract(): (T, seq<Byte>)
      requires Got?
    {
      (value, rest)
    }
  }

  // ---------------------------------------------------------------- numbers

  function Pow(w: nat): nat { if w == 0 then 1 else 256 * Pow(w - 1) }

  /** `n` in `w` bytes, the lowest first; what does not fit is cut off. */
  function Bytes(n: nat, w: nat): (r: seq<Byte>)
    ensures |r| == w
  {
    if w == 0 then [] else [n % 256] + Bytes(n / 256, w - 1)
  }

  function Number(s: seq<Byte>): nat {
    if s == [] then 0 else s[0] + 256 * Number(s[1..])
  }

  lemma {:induction false} NumberOfBytes(n: nat, w: nat)
    requires n < Pow(w)
    ensures Number(Bytes(n, w)) == n
  {
    if w > 0 {
      NumberOfBytes(n / 256, w - 1);
      assert Bytes(n, w)[1..] == Bytes(n / 256, w - 1);
    }
  }

  function ReadBytes(s: seq<Byte>, w: nat): Read<seq<Byte>> {
    if |s| < w then Short else Got(s[..w], s[w..])
  }

  function ReadNumber(s: seq<Byte>, w: nat): Read<nat> {
    if |s| < w then Short else Got(Number(s[..w]), s[w..])
  }

  lemma ReadBack(n: nat, w: nat, tail: seq<Byte>)
    requires n < Pow(w)
    ensures ReadNumber(Bytes(n, w) + tail, w) == Got(n, tail)
  {
    NumberOfBytes(n, w);
    assert (Bytes(n, w) + tail)[..w] == Bytes(n, w) && (Bytes(n, w) + tail)[w..] == tail;
  }

  /** A 32-bit number. */
  predicate Fits(n: nat) { n < Pow(4) }

  // ---------------------------------------------------------------- sets and numbered sets

  ghost function Members(list: seq<nat>): set<nat> { set x | x in list }

  ghost function Part(m: map<nat, nat>, list: seq<nat>): map<nat, nat>
    requires forall x :: x in list ==> x in m
  {
    map x | x in list :: m[x]
  }

  lemma HeadFirst(list: seq<nat>)
    requires list != []
    ensures list[0] in list && forall x :: x in list <==> x == list[0] || x in list[1..]
  {
    assert list == [list[0]] + list[1..];
  }

  lemma PairsMore(m: map<nat, nat>, list: seq<nat>, acc: map<nat, nat>)
    requires list != [] && (forall x :: x in list ==> x in m)
    ensures (forall x :: x in list[1..] ==> x in m) && list[0] in m
    ensures acc + Part(m, list) == acc[list[0] := m[list[0]]] + Part(m, list[1..])
  {
    HeadFirst(list);
  }

  /** The ids of a list one after the other, then `tail`. */
  ghost function IdBytes(list: seq<nat>, tail: seq<Byte>): seq<Byte> {
    if list == [] then tail else Bytes(list[0], 4) + IdBytes(list[1..], tail)
  }

  function ReadIds(s: seq<Byte>, n: nat, acc: set<nat>): Read<set<nat>>
    decreases n
  {
    if n == 0 then Got(acc, s)
    else match ReadNumber(s, 4) case Short => Short case Got(x, rest) => ReadIds(rest, n - 1, acc + {x})
  }

  lemma {:induction false} ReadIdsBack(list: seq<nat>, tail: seq<Byte>, acc: set<nat>)
    requires forall x :: x in list ==> Fits(x)
    ensures ReadIds(IdBytes(list, tail), |list|, acc) == Got(acc + Members(list), tail)
    decreases |list|
  {
    if list == [] {
      assert acc + Members(list) == acc;
    } else {
      HeadFirst(list);
      ReadBack(list[0], 4, IdBytes(list[1..], tail));
      ReadIdsBack(list[1..], tail, acc + {list[0]});
      assert acc + Members(list) == acc + {list[0]} + Members(list[1..]);
    }
  }

  /** Ids and their numbers one after the other, then `tail`. */
  ghost function PairBytes(m: map<nat, nat>, list: seq<nat>, tail: seq<Byte>): seq<Byte>
    requires forall x :: x in list ==> x in m
  {
    if list == [] then tail else Bytes(list[0], 4) + (Bytes(m[list[0]], 4) + PairBytes(m, list[1..], tail))
  }

  function ReadPairs(s: seq<Byte>, n: nat, acc: map<nat, nat>): Read<map<nat, nat>>
    decreases n
  {
    if n == 0 then Got(acc, s)
    else match ReadNumber(s, 4)
      case Short => Short
      case Got(x, rest) =>
        match ReadNumber(rest, 4) case Short => Short case Got(v, rest') => ReadPairs(rest', n - 1, acc[x := v])
  }

  lemma {:induction false} ReadPairsBack(m: map<nat, nat>, list: seq<nat>, tail: seq<Byte>, acc: map<nat, nat>)
    requires forall x :: x in list ==> x in m && Fits(x) && Fits(m[x])
    ensures ReadPairs(PairBytes(m, list, tail), |list|, acc) == Got(acc + Part(m, list), tail)
    decreases |list|
  {
    if list == [] {
      assert acc + Part(m, list) == acc;
    } else {
      var x, rest := list[0], list[1..];
      HeadFirst(list);
      ReadBack(x, 4, Bytes(m[x], 4) + PairBytes(m, rest, tail));
      ReadBack(m[x], 4, PairBytes(m, rest, tail));
      ReadPairsBack(m, rest, tail, acc[x := m[x]]);
      PairsMore(m, list, acc);
    }
  }

  /** `list` enumerates `s`: each member once. */
  ghost predicate Enumerates(list: seq<nat>, s: set<nat>)
  {
    Members(list) == s && |list| == |s|
  }

  lemma EnumeratesMore(list: seq<nat>, s: set<nat>, x: nat)
    requires Enumerates(list, s) && x !in s
    ensures Enumerates(list + [x], s + {x})
  {
    assert forall y :: y in list + [x] <==> y in list || y == x;
  }

  lemma {:induction false} IdBytesMore(list: seq<nat>, x: nat, tail: seq<Byte>)
    ensures IdBytes(list + [x], tail) == IdBytes(list, Bytes(x, 4) + tail)
    decreases |list|
  {
    if list == [] {
      assert [x][1..] == [] && list + [x] == [x];
    } else {
      assert (list + [x])[1..] == list[1..] + [x];
      IdBytesMore(list[1..], x, tail);
    }
  }

  lemma {:induction false} PairBytesMore(m: map<nat, nat>, list: seq<nat>, x: nat, tail: seq<Byte>)
    requires x in m && forall y :: y in list ==> y in m
    ensures forall y :: y in list + [x] ==> y in m
    ensures PairBytes(m, list + [x], tail) == PairBytes(m, list, Bytes(x, 4) + (Bytes(m[x], 4) + tail))
    decreases |list|
  {
    if list == [] {
      assert [x][1..] == [] && list + [x] == [x];
    } else {
      assert (list + [x])[1..] == list[1..] + [x];
      PairBytesMore(m, list[1..], x, tail);
    }
  }

  lemma {:induction false} IdBytesTail(list: seq<nat>, t: seq<Byte>, u: seq<Byte>)
    ensures IdBytes(list, t) + u == IdBytes(list, t + u)
    decreases |list|
  {
    if list != [] {
      IdBytesTail(list[1..], t, u);
      Shift(Bytes(list[0], 4), IdBytes(list[1..], t), u);
    }
  }

  lemma {:induction false} PairBytesTail(m: map<nat, nat>, list: seq<nat>, t: seq<Byte>, u: seq<Byte>)
    requires forall y :: y in list ==> y in m
    ensures PairBytes(m, list, t) + u == PairBytes(m, list, t + u)
    decreases |list|
  {
    if list != [] {
      PairBytesTail(m, list[1..], t, u);
      Shift(Bytes(m[list[0]], 4), PairBytes(m, list[1..], t), u);
      Shift(Bytes(list[0], 4), Bytes(m[list[0]], 4) + PairBytes(m, list[1..], t), u);
    }
  }

  lemma Shift(a: seq<Byte>, b: seq<Byte>, c: seq<Byte>)
    ensures a + (b + c) == (a + b) + c
  {}

  lemma IdBytesAppend(list: seq<nat>, x: nat)
    ensures IdBytes(list, []) + Bytes(x, 4) == IdBytes(list + [x], [])
  {
    IdBytesMore(list, x, []);
    IdBytesTail(list, [], Bytes(x, 4));
    assert [] + Bytes(x, 4) == Bytes(x, 4) + [];
  }

  lemma PairBytesAppend(m: map<nat, nat>, list: seq<nat>, x: nat)
    requires x in m && forall y :: y in list ==> y in m
    ensures forall y :: y in list + [x] ==> y in m
    ensures PairBytes(m, list, []) + Bytes(x, 4) + Bytes(m[x], 4) == PairBytes(m, list + [x], [])
  {
    PairBytesMore(m, list, x, []);
    PairBytesTail(m, list, [], Bytes(x, 4) + Bytes(m[x], 4));
    assert [] + (Bytes(x, 4) + Bytes(m[x], 4)) == Bytes(x, 4) + (Bytes(m[x], 4) + []);
    Shift(PairBytes(m, list, []), Bytes(x, 4), Bytes(m[x], 4));
  }

  /** Writes the members of a set, in any order. */
  method WriteIds(s: set<nat>) returns (out: seq<Byte>, ghost list: seq<nat>)
    ensures Enumerates(list, s) && out == IdBytes(list, [])
  {
    out, list := [], [];
    var rest := s;
    ghost var done := {};
    while rest != {}
      invariant done + rest == s && done !! rest && Enumerates(list, done) && out == IdBytes(list, [])
    {
      var x :| x in rest;
      EnumeratesMore(list, done, x);
      IdBytesAppend(list, x);
      out, list, rest, done := out + Bytes(x, 4), list + [x], rest - {x}, done + {x};
    }
    assert done == s;
  }

  /** Writes the pairs of a numbered set, in any order. */
  method WritePairs(m: map<nat, nat>) returns (out: seq<Byte>, ghost list: seq<nat>)
    ensures Enumerates(list, m.Keys) && (forall x :: x in list ==> x in m) && out == PairBytes(m, list, [])
  {
    out, list := [], [];
    var rest := m.Keys;
    ghost var done := {};
    while rest != {}
      invariant done + rest == m.Keys && done !! rest && Enumerates(list, done)
      invariant (forall x :: x in list ==> x in m) && out == PairBytes(m, list, [])
    {
      var x :| x in rest;
      EnumeratesMore(list, done, x);
      PairBytesAppend(m, list, x);
      out, list, rest, done := out + Bytes(x, 4) + Bytes(m[x], 4), list + [x], rest - {x}, done + {x};
    }
    assert done == m.Keys;
  }

  // ---------------------------------------------------------------- records

  /** Every number fits its field. */
  ghost predicate Storable(b: BlockRecord)
  {
    && Fits(b.id) && |b.hash| == HASH_SIZE && Fits(|b.parents|) && Fits(|b.children|)
    && (forall x :: x in b.parents ==> Fits(x)) && (forall x :: x in b.children ==> Fits(x))
    && Fits(b.mainParent) && b.weight < Pow(8) && Fits(b.order) && Fits(b.layer) && Fits(b.height) && b.status < Pow(1)
    && Fits(b.blueNum) && Fits(|b.blue|) && Fits(|b.red|)
    && (forall x :: x in b.blue ==> Fits(x) && Fits(b.blue[x]))
    && (forall x :: x in b.red ==> Fits(x) && Fits(b.red[x]))
  }

  /** The orders in which the four sets have been written. */
  datatype Lists = Lists(parents: seq<nat>, children: seq<nat>, blue: seq<nat>, red: seq<nat>)

  ghost predicate Listing(b: BlockRecord, l: Lists)
  {
    && Enumerates(l.parents, b.parents) && Enumerates(l.children, b.children)
    && Enumerates(l.blue, b.blue.Keys) && Enumerates(l.red, b.red.Keys)
    && (forall x :: x in l.blue ==> x in b.blue) && (forall x :: x in l.red ==> x in b.red)
  }

  ghost function FixedBytes(b: BlockRecord, tail: seq<Byte>): seq<Byte> {
    Bytes(b.mainParent, 4) + (Bytes(b.weight, 8) + (Bytes(b.order, 4) + (Bytes(b.layer, 4)
      + (Bytes(b.height, 4) + (Bytes(b.status, 1) + tail)))))
  }

  ghost function ColourBytes(b: BlockRecord, l: Lists, tail: seq<Byte>): seq<Byte>
    requires Listing(b, l)
  {
    Bytes(b.blueNum, 4) + (Bytes(|b.blue|, 4) + PairBytes(b.blue, l.blue,
      Bytes(|b.red|, 4) + PairBytes(b.red, l.red, tail)))
  }

  /** The record as bytes, for one way of enumerating the sets. */
  ghost function Encoding(b: BlockRecord, l: Lists, tail: seq<Byte>): seq<Byte>
    requires Listing(b, l)
  {
    Bytes(b.id, 4) + (b.hash + (Bytes(|b.parents|, 4) + IdBytes(l.parents,
      Bytes(|b.children|, 4) + IdBytes(l.children, FixedBytes(b, ColourBytes(b, l, tail))))))
  }

  /** Writes a record; the sets come in whatever order they are enumerated. */
  method Encode(b: BlockRecord) returns (out: seq<Byte>, ghost l: Lists)
    ensures Listing(b, l) && out == Encoding(b, l, [])
  {
    out := Bytes(b.id, 4) + b.hash + Bytes(|b.parents|, 4);
    var parents, children, blue, red;
    ghost var ps, cs, bs, rs;
    parents, ps := WriteIds(b.parents);
    out := out + parents + Bytes(|b.children|, 4);
    children, cs := WriteIds(b.children);
    out := out + children;
    var fixed := Bytes(b.mainParent, 4) + Bytes(b.weight, 8) + Bytes(b.order, 4) + Bytes(b.layer, 4)
      + Bytes(b.height, 4) + Bytes(b.status, 1);
    out := out + fixed + Bytes(b.blueNum, 4) + Bytes(|b.blue|, 4);
    blue, bs := WritePairs(b.blue);
    out := out + blue + Bytes(|b.red|, 4);
    red, rs := WritePairs(b.red);
    out := out + red;
    l := Lists(ps, cs, bs, rs);
    FixedIs(b, fixed, ColourBytes(b, l, []));
    ColoursAre(b, l, blue, red);
    HeadIs(b, l, parents, children, FixedBytes(b, ColourBytes(b, l, [])));
    Regroup(Bytes(b.id, 4), b.hash, Bytes(|b.parents|, 4), parents, Bytes(|b.children|, 4), children, fixed,
            Bytes(b.blueNum, 4), Bytes(|b.blue|, 4), blue, Bytes(|b.red|, 4), red);
  }

  lemma FixedIs(b: BlockRecord, fixed: seq<Byte>, tail: seq<Byte>)
    requires fixed == Bytes(b.mainParent, 4) + Bytes(b.weight, 8) + Bytes(b.order, 4) + Bytes(b.layer, 4)
      + Bytes(b.height, 4) + Bytes(b.status, 1)
    ensures FixedBytes(b, tail) == fixed + tail
  {}

  lemma ColoursAre(b: BlockRecord, l: Lists, blue: seq<Byte>, red: seq<Byte>)
    requires Listing(b, l) && blue == PairBytes(b.blue, l.blue, []) && red == PairBytes(b.red, l.red, [])
    ensures ColourBytes(b, l, []) == Bytes(b.blueNum, 4) + (Bytes(|b.blue|, 4) + (blue + (Bytes(|b.red|, 4) + red)))
  {
    PairBytesTail(b.blue, l.blue, [], Bytes(|b.red|, 4) + red);
    assert [] + (Bytes(|b.red|, 4) + red) == Bytes(|b.red|, 4) + red;
  }

  lemma HeadIs(b: BlockRecord, l: Lists, parents: seq<Byte>, children: seq<Byte>, tail: seq<Byte>)
    requires parents == IdBytes(l.parents, []) && children == IdBytes(l.children, [])
    ensures Bytes(b.id, 4) + (b.hash + (Bytes(|b.parents|, 4) + IdBytes(l.parents,
        Bytes(|b.children|, 4) + IdBytes(l.children, tail))))
      == Bytes(b.id, 4) + (b.hash + (Bytes(|b.parents|, 4) + (parents + (Bytes(|b.children|, 4) + (children + tail)))))
  {
    IdBytesTail(l.children, [], tail);
    assert [] + tail == tail;
    var rest := Bytes(|b.children|, 4) + (children + tail);
    IdBytesTail(l.parents, [], rest);
    assert [] + rest == rest;
  }

  lemma Regroup(a: seq<Byte>, b: seq<Byte>, c: seq<Byte>, d: seq<Byte>, e: seq<Byte>, f: seq<Byte>, g: seq<Byte>,
                h: seq<Byte>, i: seq<Byte>, j: seq<Byte>, k: seq<Byte>, l: seq<Byte>)
    ensures a + b + c + d + e + f + g + h + i + j + k + l
      == a + (b + (c + (d + (e + (f + (g + (h + (i + (j + (k + l))))))))))
  {}

  // ---------------------------------------------------------------- reading records

  method ReadIdSet(s0: seq<Byte>, n: nat) returns (r: Read<set<nat>>)
    ensures r == ReadIds(s0, n, {})
  {
    var s, acc, i := s0, {}, 0;
    while i < n
      invariant i <= n && ReadIds(s, n - i, acc) == ReadIds(s0, n, {})
    {
      var x := ReadNumber(s, 4);
      if x.Short? {
        return Short;
      }
      s, acc, i := x.rest, acc + {x.value}, i + 1;
    }
    r := Got(acc, s);
  }

  method ReadPairMap(s0: seq<Byte>, n: nat) returns (r: Read<map<nat, nat>>)
    ensures r == ReadPairs(s0, n, map[])
  {
    var s, acc: map<nat, nat>, i := s0, map[], 0;
    while i < n
      invariant i <= n && ReadPairs(s, n - i, acc) == ReadPairs(s0, n, map[])
    {
      var x := ReadNumber(s, 4);
      if x.Short? {
        return Short;
      }
      var v := ReadNumber(x.rest, 4);
      if v.Short? {
        return Short;
      }
      s, acc, i := v.rest, acc[x.value := v.value], i + 1;
    }
    r := Got(acc, s);
  }

  /** The numbers between the children and the colours. */
  datatype Fixed = Fixed(mainParent: nat, weight: nat, order: nat, layer: nat, height: nat, status: nat)

  function ReadFixed(s: seq<Byte>): Read<Fixed> {
    if |s| < 25 then Short
    else Got(Fixed(Number(s[..4]), Number(s[4..12]), Number(s[12..16]), Number(s[16..20]), Number(s[20..24]),
                   Number(s[24..25])), s[25..])
  }

  lemma ReadFixedBack(b: BlockRecord, tail: seq<Byte>)
    requires Storable(b)
    ensures ReadFixed(FixedBytes(b, tail))
      == Got(Fixed(b.mainParent, b.weight, b.order, b.layer, b.height, b.status), tail)
  {
    var s := FixedBytes(b, tail);
    assert s[..4] == Bytes(b.mainParent, 4) && s[4..12] == Bytes(b.weight, 8) && s[12..16] == Bytes(b.order, 4);
    assert s[16..20] == Bytes(b.layer, 4) && s[20..24] == Bytes(b.height, 4);
    assert s[24..25] == Bytes(b.status, 1) && s[25..] == tail;
    NumberOfBytes(b.mainParent, 4);
    NumberOfBytes(b.weight, 8);
    NumberOfBytes(b.order, 4);
    NumberOfBytes(b.layer, 4);
    NumberOfBytes(b.height, 4);
    NumberOfBytes(b.status, 1);
  }

  /** What reading a record amounts to. */
  function Parse(s: seq<Byte>): Read<BlockRecord> {
    var id :- ReadNumber(s, 4);
    var hash :- ReadBytes(id.1, HASH_SIZE);
    var parentsSize :- ReadNumber(hash.1, 4);
    var parents :- ReadIds(parentsSize.1, parentsSize.0, {});
    var childrenSize :- ReadNumber(parents.1, 4);
    var children :- ReadIds(childrenSize.1, childrenSize.0, {});
    var fixed :- ReadFixed(children.1);
    var blueNum :- ReadNumber(fixed.1, 4);
    var blueSize :- ReadNumber(blueNum.1, 4);
    var blue :- ReadPairs(blueSize.1, blueSize.0, map[]);
    var redSize :- ReadNumber(blue.1, 4);
    var red :- ReadPairs(redSize.1, redSize.0, map[]);
    Got(BlockRecord(id.0, hash.0, parents.0, children.0, fixed.0.mainParent, fixed.0.weight, fixed.0.order,
                    fixed.0.layer, fixed.0.height, fixed.0.status, blueNum.0, blue.0, red.0), red.1)
  }

  /** Reads a record field by field; fails when the data ends too early. */
  method ReadRecord(s: seq<Byte>) returns (r: Read<BlockRecord>)
    ensures r == Parse(s)
  {
    var id :- ReadNumber(s, 4);
    var hash :- ReadBytes(id.1, HASH_SIZE);
    var parentsSize :- ReadNumber(hash.1, 4);
    var parents :- ReadIdSet(parentsSize.1, parentsSize.0);
    var childrenSize :- ReadNumber(parents.1, 4);
    var children :- ReadIdSet(childrenSize.1, childrenSize.0);
    var fixed :- ReadFixed(children.1);
    var blueNum :- ReadNumber(fixed.1, 4);
    var blueSize :- ReadNumber(blueNum.1, 4);
    var blue :- ReadPairMap(blueSize.1, blueSize.0);
    var redSize :- ReadNumber(blue.1, 4);
    var red :- ReadPairMap(redSize.1, redSize.0);
    r := Got(BlockRecord(id.0, hash.0, parents.0, children.0, fixed.0.mainParent, fixed.0.weight, fixed.0.order,
                         fixed.0.layer, fixed.0.height, fixed.0.status, blueNum.0, blue.0, red.0), red.1);
  }

  lemma ReadSetBack(list: seq<nat>, s: set<nat>, tail: seq<Byte>)
    requires Enumerates(list, s) && forall x :: x in s ==> Fits(x)
    ensures ReadIds(IdBytes(list, tail), |s|, {}) == Got(s, tail)
  {
    assert forall x :: x in list ==> x in Members(list);
    ReadIdsBack(list, tail, {});
    assert {} + s == s;
  }

  lemma PartIsAll(m: map<nat, nat>, list: seq<nat>)
    requires Members(list) == m.Keys && (forall x :: x in list ==> x in m)
    ensures Part(m, list) == m
  {
    assert forall x :: x in m ==> x in Members(list);
  }

  lemma ReadMapBack(m: map<nat, nat>, list: seq<nat>, tail: seq<Byte>)
    requires Enumerates(list, m.Keys) && (forall x :: x in list ==> x in m)
    requires forall x :: x in m ==> Fits(x) && Fits(m[x])
    ensures ReadPairs(PairBytes(m, list, tail), |m|, map[]) == Got(m, tail)
  {
    ReadPairsBack(m, list, tail, map[]);
    PartIsAll(m, list);
    assert map[] + m == m;
    assert |m| == |m.Keys|;
  }

  lemma ReadHashBack(h: seq<Byte>, tail: seq<Byte>)
    requires |h| == HASH_SIZE
    ensures ReadBytes(h + tail, HASH_SIZE) == Got(h, tail)
  {
    assert (h + tail)[..HASH_SIZE] == h && (h + tail)[HASH_SIZE..] == tail;
  }

  /** Reading gives back every record, for every way of enumerating its sets, and leaves no byte behind. */
  lemma RoundTrip(b: BlockRecord, l: Lists, tail: seq<Byte>)
    requires Storable(b) && Listing(b, l)
    ensures Parse(Encoding(b, l, tail)) == Got(b, tail)
  {
    var reds := PairBytes(b.red, l.red, tail);
    var blues := PairBytes(b.blue, l.blue, Bytes(|b.red|, 4) + reds);
    var colours := ColourBytes(b, l, tail);
    var fixed := FixedBytes(b, colours);
    var kids := IdBytes(l.children, fixed);
    var parents := IdBytes(l.parents, Bytes(|b.children|, 4) + kids);
    ReadBack(b.id, 4, b.hash + (Bytes(|b.parents|, 4) + parents));
    ReadHashBack(b.hash, Bytes(|b.parents|, 4) + parents);
    ReadBack(|b.parents|, 4, parents);
    ReadSetBack(l.parents, b.parents, Bytes(|b.children|, 4) + kids);
    ReadBack(|b.children|, 4, kids);
    ReadSetBack(l.children, b.children, fixed);
    ReadFixedBack(b, colours);
    ReadBack(b.blueNum, 4, Bytes(|b.blue|, 4) + blues);
    ReadBack(|b.blue|, 4, blues);
    ReadMapBack(b.blue, l.blue, Bytes(|b.red|, 4) + reds);
    ReadBack(|b.red|, 4, reds);
    ReadMapBack(b.red, l.red, tail);
  }

  /** Reads the hash alone: the 32 bytes behind the first four. */
  function HashAlone(data: seq<Byte>): Read<seq<Byte>> {
    if |data| < 4 + HASH_SIZE then Short else Got(data[4..4 + HASH_SIZE], data[4 + HASH_SIZE..])
  }

  /** Whatever can be read as a record has its hash where it is looked for. */
  lemma HashIsSliced(data: seq<Byte>)
    requires Parse(data).Got?
    ensures HashAlone(data).Got? && HashAlone(data).value == Parse(data).value.hash
  {
    assert data[4..][..HASH_SIZE] == data[4..4 + HASH_SIZE];
  }

  /** Reads back whatever has been written, however its sets were enumerated and whatever follows;
      the hash of what is read stands in bytes 4 to 36. */
  method Decode(s: seq<Byte>) returns (r: Read<BlockRecord>)
    ensures forall b, l, tail :: Storable(b) && Listing(b, l) && s == Encoding(b, l, tail) ==> r == Got(b, tail)
    ensures r.Got? ==> |s| >= 4 + HASH_SIZE && r.value.hash == s[4..4 + HASH_SIZE]
  {
    r := ReadRecord(s);
    forall b, l, tail | Storable(b) && Listing(b, l) && s == Encoding(b, l, tail) ensures r == Got(b, tail) {
      RoundTrip(b, l, tail);
    }
    if r.Got? {
      HashIsSliced(s);
    }
  }

  /** Writing and reading: the pair of methods is a round trip that leaves no byte behind. */
  method WriteAndRead(b: BlockRecord) returns (r: Read<BlockRecord>)
    requires Storable(b)
    ensures r == Got(b, [])
  {
    var out;
    ghost var l;
    out, l := Encode(b);
    r := Decode(out);
  }
}
