/** Where the fields of a record stand in its bytes, with all numbers written out lowest byte first. */
module Layout {
  import opened Codec

  /** The 32-bit number at a position. */
  function At(s: seq<Byte>, o: nat): nat
    requires o + 4 <= |s|
  {
    var a: nat, b: nat, c: nat, d: nat := s[o], s[o + 1], s[o + 2], s[o + 3];
    a + 0x100 * b + 0x1_0000 * c + 0x100_0000 * d
  }

  /** The ids of a list from a position on, four bytes each. */
  ghost predicate IdsAt(s: seq<Byte>, o: nat, list: seq<nat>)
  {
    o + 4 * |list| <= |s| && forall i :: 0 <= i < |list| ==> At(s, o + 4 * i) == list[i]
  }

  /** Ids and their numbers from a position on, eight bytes each. */
  ghost predicate PairsAt(s: seq<Byte>, o: nat, m: map<nat, nat>, list: seq<nat>)
  {
    && o + 8 * |list| <= |s|
    && forall i :: 0 <= i < |list| ==>
         At(s, o + 8 * i) == list[i] && list[i] in m && At(s, o + 8 * i + 4) == m[list[i]]
  }

  lemma AtIsNumber(s: seq<Byte>)
    requires |s| == 4
    ensures Number(s) == At(s, 0)
  {
    assert Number(s) == s[0] + 256 * Number(s[1..]);
    assert s[1..][1..] == s[2..] && s[2..][1..] == s[3..] && s[3..][1..] == [];
    assert Number(s[1..]) == s[1] + 256 * Number(s[2..]);
    assert Number(s[2..]) == s[2] + 256 * Number(s[3..]);
  }

  /** Where a number has been written, four bytes hold it, the lowest first. */
  lemma NumberStands(s: seq<Byte>, o: nat, n: nat, rest: seq<Byte>)
    requires Fits(n) && o <= |s| && s[o..] == Bytes(n, 4) + rest
    ensures o + 4 <= |s| && At(s, o) == n && s[o + 4..] == rest
  {
    var b := Bytes(n, 4);
    NumberOfBytes(n, 4);
    AtIsNumber(b);
    assert s[o..][..4] == b && s[o..][4..] == rest;
    assert b[0] == s[o] && b[1] == s[o + 1] && b[2] == s[o + 2] && b[3] == s[o + 3];
  }

  lemma NumberCons(x: Byte, s: seq<Byte>)
    ensures Number([x] + s) == x + 256 * Number(s)
  {
    assert ([x] + s)[1..] == s;
  }

  lemma NumberSplit(low: seq<Byte>, high: seq<Byte>)
    requires |low| == 4
    ensures Number(low + high) == Number(low) + 0x1_0000_0000 * Number(high)
  {
    NumberCons(low[0], low[1..] + high);
    NumberCons(low[1], low[2..] + high);
    NumberCons(low[2], low[3..] + high);
    NumberCons(low[3], high);
    assert low + high == [low[0]] + (low[1..] + high) && low[1..] + high == [low[1]] + (low[2..] + high);
    assert low[2..] + high == [low[2]] + (low[3..] + high) && low[3..] + high == [low[3]] + high;
    AtIsNumber(low);
  }

  /** A 64-bit number: the lower half first. */
  lemma LongStands(s: seq<Byte>, o: nat, n: nat, rest: seq<Byte>)
    requires n < Pow(8) && o <= |s| && s[o..] == Bytes(n, 8) + rest
    ensures o + 8 <= |s| && At(s, o) + 0x1_0000_0000 * At(s, o + 4) == n && s[o + 8..] == rest
  {
    var b := Bytes(n, 8);
    var low, high := b[..4], b[4..];
    NumberOfBytes(n, 8);
    assert b == low + high;
    NumberSplit(low, high);
    AtIsNumber(low);
    AtIsNumber(high);
    assert s[o..][..8] == b && s[o..][8..] == rest;
    assert s[o..o + 4] == low && s[o + 4..o + 8] == high;
    SamePlace(s, o, low);
    SamePlace(s, o + 4, high);
  }

  lemma SamePlace(s: seq<Byte>, o: nat, b: seq<Byte>)
    requires o + 4 <= |s| && |b| == 4 && s[o..o + 4] == b
    ensures At(s, o) == At(b, 0)
  {
    assert b[0] == s[o] && b[1] == s[o + 1] && b[2] == s[o + 2] && b[3] == s[o + 3];
  }

  /** Listed ids follow each other, four bytes each. */
  lemma {:induction false} IdsStand(s: seq<Byte>, o: nat, list: seq<nat>, rest: seq<Byte>)
    requires o <= |s| && s[o..] == IdBytes(list, rest) && forall i :: 0 <= i < |list| ==> Fits(list[i])
    ensures IdsAt(s, o, list) && s[o + 4 * |list|..] == rest
    decreases |list|
  {
    if list != [] {
      NumberStands(s, o, list[0], IdBytes(list[1..], rest));
      IdsStand(s, o + 4, list[1..], rest);
      forall i | 0 <= i < |list| ensures At(s, o + 4 * i) == list[i] {
        if i > 0 {
          assert At(s, o + 4 + 4 * (i - 1)) == list[1..][i - 1];
        }
      }
    }
  }

  /** Listed ids with their numbers follow each other, eight bytes each. */
  lemma {:induction false} PairsStand(s: seq<Byte>, o: nat, m: map<nat, nat>, list: seq<nat>, rest: seq<Byte>)
    requires (forall x :: x in list ==> x in m) && forall i :: 0 <= i < |list| ==> Fits(list[i]) && Fits(m[list[i]])
    requires o <= |s| && s[o..] == PairBytes(m, list, rest)
    ensures PairsAt(s, o, m, list) && s[o + 8 * |list|..] == rest
    decreases |list|
  {
    if list != [] {
      var after := PairBytes(m, list[1..], rest);
      NumberStands(s, o, list[0], Bytes(m[list[0]], 4) + after);
      NumberStands(s, o + 4, m[list[0]], after);
      PairsStand(s, o + 8, m, list[1..], rest);
      forall i | 0 <= i < |list|
        ensures At(s, o + 8 * i) == list[i] && list[i] in m && At(s, o + 8 * i + 4) == m[list[i]]
      {
        if i > 0 {
          assert At(s, o + 8 + 8 * (i - 1)) == list[1..][i - 1];
        }
      }
    }
  }

  /** A list behind its length. */
  lemma CountedIds(s: seq<Byte>, o: nat, ids: set<nat>, list: seq<nat>, rest: seq<Byte>, first: nat, end: nat)
    requires Enumerates(list, ids) && Fits(|ids|) && forall x :: x in ids ==> Fits(x)
    requires o <= |s| && s[o..] == Bytes(|ids|, 4) + IdBytes(list, rest)
    requires first == o + 4 && end == first + 4 * |ids|
    ensures |list| == |ids| && end <= |s| && At(s, o) == |ids| && IdsAt(s, first, list) && s[end..] == rest
  {
    ListedFit(list, ids);
    NumberStands(s, o, |ids|, IdBytes(list, rest));
    IdsStand(s, first, list, rest);
  }

  lemma CountedPairs(s: seq<Byte>, o: nat, m: map<nat, nat>, list: seq<nat>, rest: seq<Byte>, first: nat, end: nat)
    requires Enumerates(list, m.Keys) && (forall x :: x in list ==> x in m)
    requires Fits(|m|) && forall x :: x in m ==> Fits(x) && Fits(m[x])
    requires o <= |s| && s[o..] == Bytes(|m|, 4) + PairBytes(m, list, rest)
    requires first == o + 4 && end == first + 8 * |m|
    ensures |list| == |m| && end <= |s| && At(s, o) == |m| && PairsAt(s, first, m, list) && s[end..] == rest
  {
    ListedFit(list, m.Keys);
    assert |m.Keys| == |m|;
    assert forall i :: 0 <= i < |list| ==> list[i] in list;
    NumberStands(s, o, |m|, PairBytes(m, list, rest));
    PairsStand(s, first, m, list, rest);
  }

  lemma ListedFit(list: seq<nat>, s: set<nat>)
    requires Enumerates(list, s) && forall x :: x in s ==> Fits(x)
    ensures |list| == |s| && forall i :: 0 <= i < |list| ==> Fits(list[i])
  {
    assert forall i :: 0 <= i < |list| ==> list[i] in Members(list);
  }

  /** A record begins with its id, 32 bytes of hash, the number of parents and the parents, the number of
      children and the children; the rest comes behind. */
  lemma HeadLayout(b: BlockRecord, l: Lists, tail: seq<Byte>, s: seq<Byte>, kids: nat, end: nat)
    requires Storable(b) && Listing(b, l) && s == Encoding(b, l, tail)
    requires kids == 40 + 4 * |b.parents| && end == 44 + 4 * |b.parents| + 4 * |b.children|
    ensures |s| >= end && At(s, 0) == b.id && s[4..36] == b.hash
    ensures At(s, 36) == |b.parents| == |l.parents| && IdsAt(s, 40, l.parents)
    ensures At(s, kids) == |b.children| == |l.children| && IdsAt(s, kids + 4, l.children)
    ensures s[end..] == FixedBytes(b, ColourBytes(b, l, tail))
  {
    var fixed := FixedBytes(b, ColourBytes(b, l, tail));
    var children := Bytes(|b.children|, 4) + IdBytes(l.children, fixed);
    var folks := Bytes(|b.parents|, 4) + IdBytes(l.parents, children);
    NumberStands(s, 0, b.id, b.hash + folks);
    HashStands(s, b.hash, folks);
    CountedIds(s, 36, b.parents, l.parents, children, 40, kids);
    CountedIds(s, kids, b.children, l.children, fixed, kids + 4, end);
  }

  lemma HashStands(s: seq<Byte>, hash: seq<Byte>, rest: seq<Byte>)
    requires |s| >= 4 && |hash| == 32 && s[4..] == hash + rest
    ensures |s| >= 36 && s[4..36] == hash && s[36..] == rest
  {
    assert s[4..][..32] == hash && s[4..][32..] == rest;
    assert s[4..36] == s[4..][..32];
  }

  /** Then come main parent, weight, order, layer, height and status, 25 bytes together. */
  lemma FixedLayout(s: seq<Byte>, o: nat, b: BlockRecord, rest: seq<Byte>)
    requires Storable(b) && o <= |s| && s[o..] == FixedBytes(b, rest)
    ensures o + 25 <= |s| && At(s, o) == b.mainParent && At(s, o + 4) + 0x1_0000_0000 * At(s, o + 8) == b.weight
    ensures At(s, o + 12) == b.order && At(s, o + 16) == b.layer && At(s, o + 20) == b.height
    ensures s[o + 24] == b.status && s[o + 25..] == rest
  {
    var e := Bytes(b.status, 1) + rest;
    var d := Bytes(b.height, 4) + e;
    var c := Bytes(b.layer, 4) + d;
    var f := Bytes(b.order, 4) + c;
    NumberStands(s, o, b.mainParent, Bytes(b.weight, 8) + f);
    LongStands(s, o + 4, b.weight, f);
    NumberStands(s, o + 12, b.order, c);
    NumberStands(s, o + 16, b.layer, d);
    NumberStands(s, o + 20, b.height, e);
    assert s[o + 24..][0] == b.status && s[o + 24..][1..] == rest;
  }

  /** Then blue number, number of blue blocks and the blue blocks with their numbers. */
  lemma BlueLayout(s: seq<Byte>, o: nat, b: BlockRecord, l: Lists, rest: seq<Byte>, end: nat)
    requires Storable(b) && Listing(b, l) && o <= |s| && s[o..] == ColourBytes(b, l, rest)
    requires end == o + 8 + 8 * |b.blue|
    ensures |s| >= end && At(s, o) == b.blueNum
    ensures At(s, o + 4) == |b.blue| == |l.blue| && PairsAt(s, o + 8, b.blue, l.blue)
    ensures s[end..] == Bytes(|b.red|, 4) + PairBytes(b.red, l.red, rest)
  {
    var red := Bytes(|b.red|, 4) + PairBytes(b.red, l.red, rest);
    var blue := Bytes(|b.blue|, 4) + PairBytes(b.blue, l.blue, red);
    NumberStands(s, o, b.blueNum, blue);
    CountedPairs(s, o + 4, b.blue, l.blue, red, o + 8, end);
  }

  /** In the end the number of red blocks and the red blocks with their numbers. */
  lemma RedLayout(s: seq<Byte>, o: nat, b: BlockRecord, l: Lists, rest: seq<Byte>, end: nat)
    requires Storable(b) && Listing(b, l) && o <= |s| && s[o..] == Bytes(|b.red|, 4) + PairBytes(b.red, l.red, rest)
    requires end == o + 4 + 8 * |b.red|
    ensures |s| >= end && At(s, o) == |b.red| == |l.red| && PairsAt(s, o + 4, b.red, l.red) && s[end..] == rest
  {
    CountedPairs(s, o, b.red, l.red, rest, o + 4, end);
  }
}
