/** The genesis payouts: large amounts are sliced, the slices are shuffled with a
    seed, and what is to be locked is spread over days with a fixed quota. */
module Payout {

  const STANDARD := 0
  const AUTO_LOCK := 1
  const LOCK_WITH_HEIGHT := 2

  datatype Payout = Payout(coin: int, address: string, amount: int, kind: int, lockHeight: int)

  /** One line of the generated ledger: an amount locked up to a height. */
  datatype Paid = Paid(coin: int, address: string, amount: int, kind: int, height: int)

  predicate Locked(v: Payout) { v.kind != STANDARD && v.kind != LOCK_WITH_HEIGHT }

  /** Payouts that lead to a payment: the free ones, those with a height of their own, and
      those spread over days unless they are negative. */
  predicate Paying(v: Payout) {
    v.kind == STANDARD || v.kind == LOCK_WITH_HEIGHT || (v.kind == AUTO_LOCK && v.amount >= 0)
  }

  // ---------------------------------------------------------------- slicing

  /** Slicing comes to an end. */
  predicate Sliceable(v: Payout, unit: int) { unit > 0 || !Locked(v) || v.amount <= unit }

  predicate AllSliceable(data: seq<Payout>, unit: int) {
    forall i :: 0 <= i < |data| ==> Sliceable(data[i], unit)
  }

  /** An amount in slices of `unit`; the last slice takes the rest. */
  function Slices(v: Payout, unit: int): seq<Payout>
    requires Sliceable(v, unit)
    decreases v.amount
  {
    if !Locked(v) || v.amount <= unit then [v]
    else [v.(amount := unit)] + Slices(v.(amount := v.amount - unit), unit)
  }

  /** Free payouts and those with a height of their own stay whole, and so do small ones; of the others
      all slices but the last are of one unit, and the last is the rest, which is positive and no larger. */
  lemma {:induction false} SlicesAre(v: Payout, unit: int)
    requires Sliceable(v, unit)
    ensures var s := Slices(v, unit);
      && |s| >= 1 && (forall i :: 0 <= i < |s| - 1 ==> s[i] == v.(amount := unit))
      && s[|s| - 1] == v.(amount := v.amount - (|s| - 1) * unit)
      && s[|s| - 1].amount == SlicedOff(v.amount, unit, |s| - 1)
      && (v.kind == STANDARD || v.kind == LOCK_WITH_HEIGHT || v.amount <= unit ==> s == [v])
      && (v.kind != STANDARD && v.kind != LOCK_WITH_HEIGHT && v.amount > unit ==> 0 < s[|s| - 1].amount <= unit)
    decreases v.amount
  {
    if Locked(v) && v.amount > unit {
      var rest := v.(amount := v.amount - unit);
      SlicesAre(rest, unit);
      var s, t := Slices(v, unit), Slices(rest, unit);
      assert s == [v.(amount := unit)] + t && s[|s| - 1] == t[|t| - 1];
      assert (|s| - 1) * unit == (|t| - 1) * unit + unit;
    }
  }

  function AllSlices(data: seq<Payout>, unit: int): seq<Payout>
    requires AllSliceable(data, unit)
  {
    if data == [] then [] else AllSlices(data[..|data| - 1], unit) + Slices(data[|data| - 1], unit)
  }

  /** What the payouts give. */
  function Given(s: seq<Payout>, sum: Sum): int {
    if s == [] then 0
    else Given(s[..|s| - 1], sum) + Share(s[|s| - 1], sum)
  }

  function Share(v: Payout, sum: Sum): int {
    if Counts(sum.kinds, v) && Meant(sum.who, v.coin, v.address) then v.amount else 0
  }

  /** Whose payouts are added up: one address in one coin, or all of them. */
  datatype Who = Everyone | Holder(coin: int, address: string)

  /** Which payouts are added up: all, or those that lead to a payment, or the others; and of those that do, the
      free ones, those locked up to a given height of their own, or those spread over days. */
  datatype Kinds = All | Known | Unknown | Free | Until(height: int) | Daily

  datatype Sum = Sum(who: Who, kinds: Kinds)

  predicate Meant(who: Who, coin: int, address: string) {
    who == Everyone || who == Holder(coin, address)
  }

  predicate Counts(kinds: Kinds, v: Payout) {
    match kinds
    case All => true
    case Known => Paying(v)
    case Unknown => !Paying(v)
    case Free => v.kind == STANDARD
    case Until(height) => v.kind == LOCK_WITH_HEIGHT && v.lockHeight == height
    case Daily => v.kind == AUTO_LOCK && v.amount > 0
  }

  /** Lines of the ledger in the same terms; the free ones have height 0. */
  predicate Matches(kinds: Kinds, o: Paid) {
    match kinds
    case All => true
    case Known => true
    case Unknown => false
    case Free => o.kind == STANDARD && o.height == 0
    case Until(height) => o.kind == LOCK_WITH_HEIGHT && o.height == height
    case Daily => o.kind == AUTO_LOCK
  }

  /** Sums over payouts of one of the three paying kinds. */
  predicate OneKind(sum: Sum) { sum.kinds.Free? || sum.kinds.Until? || sum.kinds.Daily? }

  /** What a payout leads to. */
  function Due(v: Payout, who: Who): int { Share(v, Sum(who, Known)) }

  lemma {:induction false} KindsAddUp(s: seq<Payout>, who: Who)
    ensures Given(s, Sum(who, All)) == Given(s, Sum(who, Known)) + Given(s, Sum(who, Unknown))
  {
    if s != [] {
      KindsAddUp(s[..|s| - 1], who);
    }
  }

  lemma {:induction false} GivenConcat(s: seq<Payout>, t: seq<Payout>, sum: Sum)
    ensures Given(s + t, sum) == Given(s, sum) + Given(t, sum)
    decreases |t|
  {
    if t == [] {
      assert s + t == s;
    } else {
      var u := t[..|t| - 1];
      assert (s + t)[..|s + t| - 1] == s + u;
      GivenConcat(s, u, sum);
    }
  }

  lemma GivenOne(v: Payout, sum: Sum)
    ensures Given([v], sum) == Share(v, sum)
  {
    assert [v][..0] == [];
  }

  lemma {:induction false} SlicesConserve(v: Payout, unit: int, sum: Sum)
    requires Sliceable(v, unit)
    ensures Given(Slices(v, unit), sum) == Share(v, sum)
    decreases v.amount
  {
    if !Locked(v) || v.amount <= unit {
      GivenOne(v, sum);
    } else {
      var first, rest := v.(amount := unit), v.(amount := v.amount - unit);
      SlicesConserve(rest, unit, sum);
      GivenOne(first, sum);
      GivenConcat([first], Slices(rest, unit), sum);
    }
  }

  /** Slicing keeps what every address is given, for payouts of every kind. */
  lemma {:induction false} SlicingConserves(data: seq<Payout>, unit: int, sum: Sum)
    requires AllSliceable(data, unit)
    ensures Given(AllSlices(data, unit), sum) == Given(data, sum)
    decreases |data|
  {
    if data != [] {
      SlicingConserves(data[..|data| - 1], unit, sum);
      SlicesConserve(data[|data| - 1], unit, sum);
      GivenConcat(AllSlices(data[..|data| - 1], unit), Slices(data[|data| - 1], unit), sum);
    }
  }

  /** Slices the payouts one after the other; the keys number the slices. */
  method SliceAll(data: seq<Payout>, unit: int) returns (list: seq<Payout>, keys: seq<int>)
    requires AllSliceable(data, unit)
    ensures list == AllSlices(data, unit)
    ensures |keys| == |list| && forall i :: 0 <= i < |keys| ==> keys[i] == i
  {
    list, keys := [], [];
    var i := 0;
    for j := 0 to |data|
      invariant list == AllSlices(data[..j], unit)
      invariant i == |keys| == |list| && forall t :: 0 <= t < |keys| ==> keys[t] == t
    {
      var v := data[j];
      ghost var before := list;
      while true
        invariant Sliceable(v, unit) && list + Slices(v, unit) == before + Slices(data[j], unit)
        invariant i == |keys| == |list| && forall t :: 0 <= t < |keys| ==> keys[t] == t
        decreases v.amount
      {
        if !Locked(v) || v.amount <= unit {
          list, keys, i := list + [v], keys + [i], i + 1;
          break;
        }
        SliceOff(list, v, unit);
        list, keys, i := list + [v.(amount := unit)], keys + [i], i + 1;
        v := v.(amount := v.amount - unit);
      }
      assert data[..j + 1][..j] == data[..j];
    }
    assert data[..|data|] == data;
  }

  lemma SliceOff(list: seq<Payout>, v: Payout, unit: int)
    requires unit > 0 && Locked(v) && v.amount > unit
    ensures list + Slices(v, unit) == list + [v.(amount := unit)] + Slices(v.(amount := v.amount - unit), unit)
  {}

  // ---------------------------------------------------------------- shuffling

  /** Eight bytes of the seed, the lowest first. */
  function LittleEndian(bytes: seq<bv8>): nat
  {
    if bytes == [] then 0 else bytes[0] as nat + 256 * LittleEndian(bytes[1..])
  }

  /** A position below `max`, picked by the seed. */
  function RandShuffle(max: int, seed: seq<bv8>): (p: int)
    requires max > 0 && |seed| >= 32
    ensures 0 <= p < max
  {
    var m := if max > 24 then max % 24 else max;
    var start := if m <= 0 then 1 else m;
    LittleEndian(seed[start..start + 8]) % max
  }

  lemma FourBytes(b: seq<bv8>)
    requires |b| >= 4
    ensures LittleEndian(b) == b[0] as nat + 0x100 * b[1] as nat + 0x1_0000 * b[2] as nat + 0x100_0000 * b[3] as nat
      + 0x1_0000_0000 * LittleEndian(b[4..])
  {
    var high := LittleEndian(b[4..]);
    assert LittleEndian(b[3..]) == b[3] as nat + 256 * high by {
      assert b[3..][1..] == b[4..];
    }
    assert LittleEndian(b[2..]) == b[2] as nat + 256 * LittleEndian(b[3..]) by {
      assert b[2..][1..] == b[3..];
    }
    assert LittleEndian(b[1..]) == b[1] as nat + 256 * LittleEndian(b[2..]) by {
      assert b[1..][1..] == b[2..];
    }
  }

  /** Eight bytes as one number, the first byte the lowest. */
  lemma EightBytes(b: seq<bv8>)
    requires |b| == 8
    ensures LittleEndian(b) == b[0] as nat + 0x100 * b[1] as nat + 0x1_0000 * b[2] as nat + 0x100_0000 * b[3] as nat
      + 0x1_0000_0000 * b[4] as nat + 0x100_0000_0000 * b[5] as nat + 0x1_0000_0000_0000 * b[6] as nat
      + 0x100_0000_0000_0000 * b[7] as nat
  {
    FourBytes(b);
    var high := b[4..];
    FourBytes(high);
    assert high[4..] == [] && LittleEndian([]) == 0;
    assert high[0] == b[4] && high[1] == b[5] && high[2] == b[6] && high[3] == b[7];
  }

  /** Which bytes of the seed pick the position: the eight from the given position on, taken modulo 24 if it is
      larger, and from 1 on where that would be 0; the first of them is the lowest. */
  lemma RandShuffleReads(max: int, seed: seq<bv8>, from: int, b: seq<bv8>)
    requires max > 0 && |seed| >= 32
    requires from == if max <= 24 then max else if max % 24 == 0 then 1 else max % 24
    requires |b| == 8 && forall i :: 0 <= i < 8 ==> b[i] == seed[from + i]
    ensures RandShuffle(max, seed) == (b[0] as nat + 0x100 * b[1] as nat + 0x1_0000 * b[2] as nat
      + 0x100_0000 * b[3] as nat + 0x1_0000_0000 * b[4] as nat + 0x100_0000_0000 * b[5] as nat
      + 0x1_0000_0000_0000 * b[6] as nat + 0x100_0000_0000_0000 * b[7] as nat) % max
  {
    EightBytes(b);
    assert b == seed[from..from + 8];
  }

  function Swapped<T>(s: seq<T>, i: int, j: int): seq<T>
    requires 0 <= i < |s| && 0 <= j < |s|
  {
    s[i := s[j]][j := s[i]]
  }

  /** The swaps at positions `i`, `i - 1`, ..., 1. */
  function Shuffled(s: seq<int>, i: int, seed: seq<bv8>): (r: seq<int>)
    requires i < |s| && |seed| >= 32
    ensures |r| == |s|
    decreases i
  {
    if i <= 0 then s else Shuffled(Swapped(s, i, RandShuffle(i, seed)), i - 1, seed)
  }

  method GenesisShuffle(a: array<int>, seed: seq<bv8>)
    requires |seed| >= 32
    modifies a
    ensures a[..] == Shuffled(old(a[..]), a.Length - 1, seed)
  {
    var i := a.Length - 1;
    while i > 0
      invariant i < a.Length && (i >= 0 || a.Length == 0)
      invariant Shuffled(a[..], i, seed) == Shuffled(old(a[..]), a.Length - 1, seed)
    {
      var p := RandShuffle(i, seed);
      assert Swapped(a[..], i, p) == a[..][i := a[p]][p := a[i]];
      a[i], a[p] := a[p], a[i];
      i := i - 1;
    }
  }

  /** Where the entries come from: after the swaps from `i` down, position `j` holds the entry of `From(i)[j]`. */
  ghost function From(i: nat, seed: seq<bv8>): (r: seq<nat>)
    requires |seed| >= 32
    ensures |r| == i + 1 && forall j :: 0 <= j <= i ==> r[j] <= i
  {
    if i == 0 then [0]
    else
      var p, low := RandShuffle(i, seed), From(i - 1, seed);
      seq(i, j requires 0 <= j < i => if low[j] == p then i else low[j]) + [p]
  }

  lemma {:induction false} ShuffledFrom(s: seq<int>, i: nat, seed: seq<bv8>, j: nat)
    requires i < |s| && |seed| >= 32 && j < |s|
    ensures Shuffled(s, i, seed)[j] == s[if j <= i then From(i, seed)[j] else j]
    decreases i
  {
    if i > 0 {
      ShuffledFrom(Swapped(s, i, RandShuffle(i, seed)), i - 1, seed, j);
    }
  }

  /** The swap at position `i` puts the entry there that the seed picks, and the swaps below leave it alone. */
  lemma PickedAt(s: seq<int>, i: nat, seed: seq<bv8>)
    requires 1 <= i < |s| && |seed| >= 32
    ensures Shuffled(s, i, seed)[i] == s[RandShuffle(i, seed)]
  {
    var t := Swapped(s, i, RandShuffle(i, seed));
    ShuffledFrom(t, i - 1, seed, i);
    assert t[i] == s[RandShuffle(i, seed)];
  }

  /** `c` lists the positions `0..i` in the order in which `r` leads from one to the next, and back to the first. */
  ghost predicate IsCycle(r: seq<nat>, c: seq<nat>)
  {
    && |c| == |r| > 0
    && (forall t :: 0 <= t < |c| ==> c[t] < |r|)
    && (forall x {:trigger Listed(c, x)} :: 0 <= x < |r| ==> Listed(c, x))
    && (forall t, u :: 0 <= t < u < |c| ==> c[t] != c[u])
    && (forall t {:trigger r[c[t]]} :: 0 <= t < |c| - 1 ==> r[c[t]] == c[t + 1])
    && r[c[|c| - 1]] == c[0]
  }

  ghost predicate Listed(c: seq<nat>, x: nat) {
    exists t :: 0 <= t < |c| && c[t] == x
  }

  lemma Rotated(r: seq<nat>, c: seq<nat>, k: nat)
    requires IsCycle(r, c) && k < |c|
    ensures IsCycle(r, c[k..] + c[..k]) && (c[k..] + c[..k])[0] == c[k]
  {
    var d := c[k..] + c[..k];
    forall t | 0 <= t < |d| ensures d[t] == if t < |c| - k then c[k + t] else c[t - (|c| - k)] {}
    forall x | 0 <= x < |r| ensures Listed(d, x) {
      assert Listed(c, x);
      var t :| 0 <= t < |c| && c[t] == x;
      assert d[if t >= k then t - k else t + (|c| - k)] == x;
    }
  }

  /** Swapping each position with an earlier one makes a single cycle of all positions. */
  lemma {:induction false} FromIsCycle(i: nat, seed: seq<bv8>) returns (c: seq<nat>)
    requires |seed| >= 32
    ensures IsCycle(From(i, seed), c)
  {
    if i == 0 {
      c := [0];
      assert c[0] == 0;
    } else {
      var p, low := RandShuffle(i, seed), From(i - 1, seed);
      var d := FromIsCycle(i - 1, seed);
      assert Listed(d, p);
      var k :| 0 <= k < |d| && d[k] == p;
      Rotated(low, d, k);
      c := CycleWith(low, d[k..] + d[..k], From(i, seed), p);
    }
  }

  /** The new position is put between the end of the cycle and its beginning. */
  lemma CycleWith(low: seq<nat>, d: seq<nat>, r: seq<nat>, p: nat) returns (c: seq<nat>)
    requires IsCycle(low, d) && d[0] == p && |r| == |low| + 1 && r[|low|] == p
    requires forall j :: 0 <= j < |low| ==> r[j] == if low[j] == p then |low| else low[j]
    ensures IsCycle(r, c)
  {
    c := d + [|low|];
    forall x | 0 <= x < |r| ensures Listed(c, x) {
      if x < |low| {
        assert Listed(d, x);
        var t :| 0 <= t < |d| && d[t] == x;
        assert c[t] == x;
      } else {
        assert c[|low|] == x;
      }
    }
    forall t | 0 <= t < |c| - 1 ensures r[c[t]] == c[t + 1] {
      assert c[t] == d[t];
    }
  }

  lemma SwappedKeeps(s: seq<int>, i: int, j: int)
    requires 0 <= i < |s| && 0 <= j < |s|
    ensures multiset(Swapped(s, i, j)) == multiset(s)
  {}

  lemma {:induction false} ShuffledKeeps(s: seq<int>, i: int, seed: seq<bv8>)
    requires i < |s| && |seed| >= 32
    ensures multiset(Shuffled(s, i, seed)) == multiset(s)
    decreases i
  {
    if i > 0 {
      SwappedKeeps(s, i, RandShuffle(i, seed));
      ShuffledKeeps(Swapped(s, i, RandShuffle(i, seed)), i - 1, seed);
    }
  }

  /** The shuffle permutes; of two or more different entries none stays where it was. */
  lemma ShuffleDisplacesAll(s: seq<int>, seed: seq<bv8>, j: nat)
    requires |seed| >= 32 && j < |s| && |s| >= 2 && forall t, u :: 0 <= t < u < |s| ==> s[t] != s[u]
    ensures multiset(Shuffled(s, |s| - 1, seed)) == multiset(s) && Shuffled(s, |s| - 1, seed)[j] != s[j]
  {
    ShuffledKeeps(s, |s| - 1, seed);
    ShuffledFrom(s, |s| - 1, seed, j);
    NoFixedPoint(|s| - 1, seed, j);
  }

  lemma NoFixedPoint(i: nat, seed: seq<bv8>, j: nat)
    requires |seed| >= 32 && 1 <= i && j <= i
    ensures From(i, seed)[j] != j
  {
    var r := From(i, seed);
    var c := FromIsCycle(i, seed);
    assert Listed(c, j);
    var t :| 0 <= t < |c| && c[t] == j;
    assert r[c[t]] == if t < |c| - 1 then c[t + 1] else c[0];
  }

  // ---------------------------------------------------------------- scheduling

  /** What the lines pay. */
  function PaidTo(outs: seq<Paid>, who: Who): int {
    if outs == [] then 0
    else
      var o := outs[|outs| - 1];
      PaidTo(outs[..|outs| - 1], who) + if Meant(who, o.coin, o.address) then o.amount else 0
  }

  /** What the lines of some kinds pay. */
  function PaidAs(outs: seq<Paid>, sum: Sum): int {
    if outs == [] then 0
    else
      var o := outs[|outs| - 1];
      PaidAs(outs[..|outs| - 1], sum)
        + if Matches(sum.kinds, o) && Meant(sum.who, o.coin, o.address) then o.amount else 0
  }

  /** Every line is free at height 0, or locked up to a height of its own, or spread over days. */
  ghost predicate KnownLines(outs: seq<Paid>) {
    forall i :: 0 <= i < |outs| ==>
      (outs[i].kind == STANDARD && outs[i].height == 0) || outs[i].kind == LOCK_WITH_HEIGHT || outs[i].kind == AUTO_LOCK
  }

  lemma PaidAsMore(outs: seq<Paid>, o: Paid, sum: Sum)
    ensures PaidAs(outs + [o], sum) == PaidAs(outs, sum)
      + if Matches(sum.kinds, o) && Meant(sum.who, o.coin, o.address) then o.amount else 0
  {
    Snoc(outs, o);
  }

  /** One line for a whole payout, or for part of one that is spread. */
  lemma LineFor(outs: seq<Paid>, o: Paid, v: Payout, sum: Sum)
    requires OneKind(sum) && o.coin == v.coin && o.address == v.address && o.amount == v.amount && o.kind == v.kind
    requires v.kind == STANDARD ==> o.height == 0
    requires v.kind == LOCK_WITH_HEIGHT ==> o.height == v.lockHeight
    requires v.kind == AUTO_LOCK ==> v.amount > 0
    ensures PaidAs(outs + [o], sum) == PaidAs(outs, sum) + Share(v, sum)
  {
    PaidAsMore(outs, o, sum);
  }

  /** What the lines spread over days lock up to a height. */
  function LockedAt(outs: seq<Paid>, height: int): int {
    if outs == [] then 0
    else
      var o := outs[|outs| - 1];
      LockedAt(outs[..|outs| - 1], height) + if o.kind == AUTO_LOCK && o.height == height then o.amount else 0
  }

  /** `days` full days and `used` of the next one. */
  ghost predicate Filled(outs: seq<Paid>, quota: int, step: int, days: nat, used: int)
  {
    && 0 <= used && (used < quota || (days == 0 && used == 0)) && step > 0
    && forall h {:trigger LockedAt(outs, h)} :: LockedAt(outs, h) ==
         if h == days * step then used else if exists d :: 0 <= d < days && h == d * step then quota else 0
  }

  lemma Snoc(outs: seq<Paid>, o: Paid)
    ensures (outs + [o])[..|outs + [o]| - 1] == outs
  {}

  lemma NotScheduled(outs: seq<Paid>, o: Paid, quota: int, step: int, days: nat, used: int)
    requires Filled(outs, quota, step, days, used) && o.kind != AUTO_LOCK
    ensures Filled(outs + [o], quota, step, days, used)
  {
    Snoc(outs, o);
    assert forall h :: LockedAt(outs + [o], h) == LockedAt(outs, h);
  }

  lemma DayGoesOn(outs: seq<Paid>, o: Paid, quota: int, step: int, days: nat, used: int)
    requires Filled(outs, quota, step, days, used) && o.kind == AUTO_LOCK && o.height == days * step
    requires 0 <= o.amount < quota - used
    ensures Filled(outs + [o], quota, step, days, used + o.amount)
  {
    Snoc(outs, o);
    assert forall h :: LockedAt(outs + [o], h) == LockedAt(outs, h) + if h == days * step then o.amount else 0;
  }

  lemma DayEnds(outs: seq<Paid>, o: Paid, quota: int, step: int, days: nat, used: int)
    requires Filled(outs, quota, step, days, used) && o.kind == AUTO_LOCK && o.height == days * step
    requires o.amount == quota - used > 0
    ensures Filled(outs + [o], quota, step, days + 1, 0) && (days + 1) * step == days * step + step
  {
    Snoc(outs, o);
    var more := outs + [o];
    forall h ensures LockedAt(more, h) ==
      if h == (days + 1) * step then 0 else if exists d :: 0 <= d < days + 1 && h == d * step then quota else 0
    {
      assert LockedAt(more, h) == LockedAt(outs, h) + if h == days * step then o.amount else 0;
      if h == (days + 1) * step {
        Distinct(days, step);
      }
    }
  }

  lemma Distinct(days: nat, step: int)
    requires step > 0
    ensures (days + 1) * step != days * step && forall d :: 0 <= d < days ==> (days + 1) * step != d * step
  {
    forall d | 0 <= d < days ensures (days + 1) * step != d * step {
      assert (days + 1 - d) * step > 0;
    }
  }

  lemma FullDay(outs: seq<Paid>, quota: int, step: int, days: nat, used: int, d: int)
    requires Filled(outs, quota, step, days, used) && 0 <= d < days
    ensures LockedAt(outs, d * step) == quota
  {
    assert (days - d) * step > 0;
  }

  lemma PaidMore(outs: seq<Paid>, o: Paid, who: Who)
    ensures PaidTo(outs + [o], who) == PaidTo(outs, who) + if Meant(who, o.coin, o.address) then o.amount else 0
    ensures Others(outs + [o]) == Others(outs) + if o.kind == AUTO_LOCK then [] else [o]
  {
    Snoc(outs, o);
  }

  /** The lines that are not spread over days. */
  function Others(outs: seq<Paid>): seq<Paid> {
    if outs == [] then []
    else Others(outs[..|outs| - 1]) + if outs[|outs| - 1].kind == AUTO_LOCK then [] else [outs[|outs| - 1]]
  }

  /** A line that spreads `v`: part of it, for its holder, within one day. */
  predicate SpreadLine(v: Payout, quota: int, o: Paid) {
    o.coin == v.coin && o.address == v.address && o.kind == AUTO_LOCK && 0 < o.amount <= quota
  }

  /** Spreading comes to an end. */
  predicate Spreadable(v: Payout, quota: int) { quota > 0 || v.kind != AUTO_LOCK || v.amount <= 0 }

  predicate AllSpreadable(data: seq<Payout>, quota: int) {
    forall i :: 0 <= i < |data| ==> Spreadable(data[i], quota)
  }

  /** The lines from `outs0` to `outs` pay `v`, told by holder and by kind. */
  ghost predicate Pays(outs0: seq<Paid>, outs: seq<Paid>, v: Payout)
  {
    && (forall who :: PaidTo(outs, who) == PaidTo(outs0, who) + Due(v, who))
    && (forall sum :: OneKind(sum) ==> PaidAs(outs, sum) == PaidAs(outs0, sum) + Share(v, sum))
  }

  /** One more line that spreads `v`, after `paid` of it. */
  lemma PaysMore(outs0: seq<Paid>, outs: seq<Paid>, v: Payout, quota: int, paid: int, o: Paid)
    requires v.kind == AUTO_LOCK && paid >= 0 && Pays(outs0, outs, v.(amount := paid))
    requires SpreadLine(v, quota, o) && SpreadLines(outs0, outs, v, quota)
    ensures Pays(outs0, outs + [o], v.(amount := paid + o.amount)) && SpreadLines(outs0, outs + [o], v, quota)
    ensures PaidTo(outs + [o], Everyone) == PaidTo(outs, Everyone) + o.amount
  {
    var part := v.(amount := o.amount);
    forall who ensures PaidTo(outs + [o], who) == PaidTo(outs, who) + Due(part, who) {
      PaidMore(outs, o, who);
    }
    forall sum | OneKind(sum) ensures PaidAs(outs + [o], sum) == PaidAs(outs, sum) + Share(part, sum) {
      LineFor(outs, o, part, sum);
    }
    PaidMore(outs, o, Everyone);
  }

  /** Spreads one amount over the rest of the day and the days after it. */
  method Spread(v0: Payout, quota: int, step: int, height0: int, used0: int, outs0: seq<Paid>, sum0: int,
                ghost days0: nat)
    returns (height: int, used: int, outs: seq<Paid>, sum: int, ghost days: nat)
    requires v0.kind == AUTO_LOCK && Spreadable(v0, quota) && sum0 == PaidTo(outs0, Everyone)
    requires height0 == days0 * step && Filled(outs0, quota, step, days0, used0)
    ensures height == days * step && Filled(outs, quota, step, days, used) && sum == PaidTo(outs, Everyone)
    ensures Pays(outs0, outs, v0) && SpreadLines(outs0, outs, v0, quota)
    ensures SpreadOff(v0.amount, used0, quota, |outs| - |outs0|) == (if v0.amount > 0 then 0 else v0.amount, used)
  {
    var v := v0;
    height, used, outs, sum, days := height0, used0, outs0, sum0, days0;
    ghost var paid := 0;
    while v.amount > 0
      invariant v == v0.(amount := v0.amount - paid) && paid >= 0 && (v.amount >= 0 || paid == 0)
      invariant height == days * step && Filled(outs, quota, step, days, used) && sum == PaidTo(outs, Everyone)
      invariant Pays(outs0, outs, v0.(amount := paid)) && SpreadLines(outs0, outs, v0, quota)
      invariant SpreadOff(v0.amount, used0, quota, |outs| - |outs0|) == (v.amount, used)
      decreases v.amount
    {
      var left := quota - used;
      var amount := if v.amount >= left then left else v.amount;
      var o := Paid(v.coin, v.address, amount, AUTO_LOCK, height);
      SpreadOffMore(v0.amount, used0, quota, |outs| - |outs0|);
      PaysMore(outs0, outs, v0, quota, paid, o);
      Today(outs, o, quota, step, days, used);
      if v.amount >= left {
        v := v.(amount := v.amount - left);
        height, used, days := height + step, 0, days + 1;
      } else {
        used := used + amount;
        v := v.(amount := 0);
      }
      outs, sum, paid := outs + [o], sum + amount, paid + amount;
    }
    PaysAll(outs0, outs, v0, paid);
  }

  /** The lines from `outs0` to `outs` all spread `v`. */
  ghost predicate SpreadLines(outs0: seq<Paid>, outs: seq<Paid>, v: Payout, quota: int)
  {
    && outs0 <= outs && Others(outs) == Others(outs0)
    && forall i :: |outs0| <= i < |outs| ==> SpreadLine(v, quota, outs[i])
  }

  lemma Today(outs: seq<Paid>, o: Paid, quota: int, step: int, days: nat, used: int)
    requires Filled(outs, quota, step, days, used) && o.kind == AUTO_LOCK && o.height == days * step
    requires 0 < o.amount <= quota - used
    ensures o.amount == quota - used ==>
      Filled(outs + [o], quota, step, days + 1, 0) && (days + 1) * step == days * step + step
    ensures o.amount < quota - used ==> Filled(outs + [o], quota, step, days, used + o.amount)
  {
    if o.amount == quota - used {
      DayEnds(outs, o, quota, step, days, used);
    } else {
      DayGoesOn(outs, o, quota, step, days, used);
    }
  }

  lemma PaysAll(outs0: seq<Paid>, outs: seq<Paid>, v: Payout, paid: int)
    requires v.kind == AUTO_LOCK && Pays(outs0, outs, v.(amount := paid))
    requires paid == if v.amount > 0 then v.amount else 0
    ensures Pays(outs0, outs, v)
  {
    forall who ensures PaidTo(outs, who) == PaidTo(outs0, who) + Due(v, who) {
      assert Due(v.(amount := paid), who) == Due(v, who);
    }
    forall sum | OneKind(sum) ensures PaidAs(outs, sum) == PaidAs(outs0, sum) + Share(v, sum) {
      assert Share(v.(amount := paid), sum) == Share(v, sum);
    }
  }

  /** What the listed payouts give, taken in the order of the keys. */
  function GivenBy(list: seq<Payout>, keys: seq<int>, sum: Sum): int
    requires InRange(list, keys)
  {
    if keys == [] then 0
    else GivenBy(list, keys[..|keys| - 1], sum) + Share(list[keys[|keys| - 1]], sum)
  }

  /** The line of a payout that is free or locked up to a height of its own. */
  function DirectLine(v: Payout): Paid {
    Paid(v.coin, v.address, v.amount, v.kind, if v.kind == STANDARD then 0 else v.lockHeight)
  }

  function DirectLines(list: seq<Payout>, keys: seq<int>): seq<Paid>
    requires InRange(list, keys)
  {
    if keys == [] then []
    else
      var v := list[keys[|keys| - 1]];
      DirectLines(list, keys[..|keys| - 1]) + if Locked(v) then [] else [DirectLine(v)]
  }

  ghost predicate WithinQuota(outs: seq<Paid>, quota: int) {
    forall i :: 0 <= i < |outs| && outs[i].kind == AUTO_LOCK ==> 0 < outs[i].amount <= quota
  }

  lemma LinesStayKnown(outs0: seq<Paid>, outs: seq<Paid>)
    requires KnownLines(outs0) && outs0 <= outs
    requires forall i :: |outs0| <= i < |outs| ==> KnownLines([outs[i]])
    ensures KnownLines(outs)
  {
    forall i | 0 <= i < |outs|
      ensures (outs[i].kind == STANDARD && outs[i].height == 0) || outs[i].kind == LOCK_WITH_HEIGHT
        || outs[i].kind == AUTO_LOCK
    {
      if i < |outs0| {
        assert outs[i] == outs0[i];
      } else {
        assert [outs[i]][0] == outs[i];
      }
    }
  }

  /** Pays a payout that is free or locked up to a height of its own in one line. */
  method PayAtOnce(v: Payout, outs0: seq<Paid>, ghost quota: int, ghost step: int, ghost days: nat, ghost used: int)
    returns (outs: seq<Paid>)
    requires v.kind == STANDARD || v.kind == LOCK_WITH_HEIGHT
    requires Filled(outs0, quota, step, days, used) && KnownLines(outs0)
    ensures Filled(outs, quota, step, days, used) && KnownLines(outs)
    ensures forall who :: PaidTo(outs, who) == PaidTo(outs0, who) + Due(v, who)
    ensures outs == outs0 + [DirectLine(v)] && Others(outs) == Others(outs0) + [DirectLine(v)]
    ensures forall sum :: OneKind(sum) ==> PaidAs(outs, sum) == PaidAs(outs0, sum) + Share(v, sum)
  {
    var o;
    if v.kind == STANDARD {
      o := Paid(v.coin, v.address, v.amount, STANDARD, 0);
    } else {
      o := Paid(v.coin, v.address, v.amount, LOCK_WITH_HEIGHT, v.lockHeight);
    }
    outs := outs0 + [o];
    NotScheduled(outs0, o, quota, step, days, used);
    LinesStayKnown(outs0, outs);
    forall who ensures PaidTo(outs, who) == PaidTo(outs0, who) + Due(v, who) {
      PaidMore(outs0, o, who);
    }
    PaidMore(outs0, o, Everyone);
    forall sum | OneKind(sum) ensures PaidAs(outs, sum) == PaidAs(outs0, sum) + Share(v, sum) {
      LineFor(outs0, o, v, sum);
    }
  }

  /** Pays one payout: at once if it is free or locked up to a height of its own, spread over
      days if it is to be locked; a payout of another kind is passed over. */
  method PayOne(v: Payout, quota: int, step: int, height0: int, used0: int, outs0: seq<Paid>, sum0: int,
                ghost days0: nat)
    returns (height: int, used: int, outs: seq<Paid>, sum: int, ghost days: nat)
    requires Spreadable(v, quota) && sum0 == PaidTo(outs0, Everyone) && WithinQuota(outs0, quota) && KnownLines(outs0)
    requires height0 == days0 * step && Filled(outs0, quota, step, days0, used0)
    ensures height == days * step && Filled(outs, quota, step, days, used)
    ensures sum == PaidTo(outs, Everyone) && WithinQuota(outs, quota) && KnownLines(outs)
    ensures forall who :: PaidTo(outs, who) == PaidTo(outs0, who) + Due(v, who)
    ensures Others(outs) == Others(outs0) + if Locked(v) then [] else [DirectLine(v)]
    ensures forall sum :: OneKind(sum) ==> PaidAs(outs, sum) == PaidAs(outs0, sum) + Share(v, sum)
  {
    height, used, outs, sum, days := height0, used0, outs0, sum0, days0;
    if v.kind == STANDARD || v.kind == LOCK_WITH_HEIGHT {
      outs := PayAtOnce(v, outs0, quota, step, days, used);
      sum := sum0 + v.amount;
    } else if v.kind == AUTO_LOCK {
      height, used, outs, sum, days := Spread(v, quota, step, height, used, outs, sum, days);
      LinesStayKnown(outs0, outs);
    }
  }

  /** Pays the listed payouts in the order of the keys. */
  method Schedule(list: seq<Payout>, keys: seq<int>, quota: int, step: int)
    returns (outs: seq<Paid>, sum: int, ghost days: nat, ghost used: int)
    requires step > 0 && InRange(list, keys) && AllSpreadable(list, quota)
    ensures Filled(outs, quota, step, days, used) && sum == PaidTo(outs, Everyone)
    ensures forall who :: PaidTo(outs, who) == GivenBy(list, keys, Sum(who, Known))
    ensures Others(outs) == DirectLines(list, keys) && WithinQuota(outs, quota)
    ensures KnownLines(outs) && forall s :: OneKind(s) ==> PaidAs(outs, s) == GivenBy(list, keys, s)
  {
    outs, sum, days := [], 0, 0;
    var height, usedNow := 0, 0;
    for i := 0 to |keys|
      invariant height == days * step && Filled(outs, quota, step, days, usedNow)
      invariant sum == PaidTo(outs, Everyone) && WithinQuota(outs, quota)
      invariant forall who :: PaidTo(outs, who) == GivenBy(list, keys[..i], Sum(who, Known))
      invariant Others(outs) == DirectLines(list, keys[..i])
      invariant KnownLines(outs) && forall s :: OneKind(s) ==> PaidAs(outs, s) == GivenBy(list, keys[..i], s)
    {
      assert keys[..i + 1][..i] == keys[..i];
      height, usedNow, outs, sum, days := PayOne(list[keys[i]], quota, step, height, usedNow, outs, sum, days);
    }
    assert keys[..|keys|] == keys;
    used := usedNow;
  }

  // ---------------------------------------------------------------- when the loops end

  /** What is left after `n` rounds of slicing. */
  function SlicedOff(amount: int, unit: int, n: nat): int {
    amount - n * unit
  }

  /** The slicing of an amount that is too large ends iff the unit is positive. */
  lemma SlicingEndsIff(amount: int, unit: int)
    requires amount > unit
    ensures (exists n: nat :: SlicedOff(amount, unit, n) <= unit) <==> unit > 0
  {
    if unit > 0 {
      assert amount * unit >= amount;
      assert SlicedOff(amount, unit, amount) <= unit;
    } else {
      forall n: nat ensures SlicedOff(amount, unit, n) > unit {
        assert n * unit <= 0;
      }
    }
  }

  /** What is left of an amount, and what is used of the day, after `n` rounds of spreading. */
  function SpreadOff(amount: int, used: int, quota: int, n: nat): (r: (int, int))
    decreases n
  {
    if n == 0 || amount <= 0 then (amount, used)
    else if amount >= quota - used then SpreadOff(amount - (quota - used), 0, quota, n - 1)
    else SpreadOff(0, used + amount, quota, n - 1)
  }

  lemma {:induction false} SpreadOffMore(amount: int, used: int, quota: int, n: nat)
    ensures var (a, u) := SpreadOff(amount, used, quota, n);
      a > 0 ==> SpreadOff(amount, used, quota, n + 1) == if a >= quota - u then (a - (quota - u), 0) else (0, u + a)
    decreases n
  {
    if n > 0 && amount > 0 {
      if amount >= quota - used {
        SpreadOffMore(amount - (quota - used), 0, quota, n - 1);
      } else {
        SpreadOffMore(0, used + amount, quota, n - 1);
      }
    }
  }

  /** The spreading of a positive amount ends iff the quota is positive. */
  lemma SpreadingEndsIff(amount: int, used: int, quota: int)
    requires amount > 0 && 0 <= used && (used < quota || used == 0)
    ensures (exists n: nat :: SpreadOff(amount, used, quota, n).0 <= 0) <==> quota > 0
  {
    if quota > 0 {
      SpreadingEnds(amount, used, quota);
    } else {
      forall n: nat ensures SpreadOff(amount, used, quota, n).0 > 0 {
        SpreadingGoesOn(amount, quota, n);
      }
    }
  }

  lemma {:induction false} SpreadingEnds(amount: int, used: int, quota: int)
    requires 0 <= used < quota
    ensures exists n: nat :: SpreadOff(amount, used, quota, n).0 <= 0
    decreases amount
  {
    if amount <= 0 {
      assert SpreadOff(amount, used, quota, 0).0 <= 0;
    } else if amount >= quota - used {
      SpreadingEnds(amount - (quota - used), 0, quota);
      var n: nat :| SpreadOff(amount - (quota - used), 0, quota, n).0 <= 0;
      assert SpreadOff(amount, used, quota, n + 1).0 <= 0;
    } else {
      assert SpreadOff(amount, used, quota, 1).0 <= 0;
    }
  }

  lemma {:induction false} SpreadingGoesOn(amount: int, quota: int, n: nat)
    requires amount > 0 && quota <= 0
    ensures SpreadOff(amount, 0, quota, n).0 > 0
    decreases n
  {
    if n > 0 {
      SpreadingGoesOn(amount - quota, quota, n - 1);
    }
  }

  // ---------------------------------------------------------------- the whole pipeline

  lemma {:induction false} GivenInOrder(list: seq<Payout>, keys: seq<int>, sum: Sum)
    requires |keys| <= |list| && forall i :: 0 <= i < |keys| ==> keys[i] == i
    ensures GivenBy(list, keys, sum) == Given(list[..|keys|], sum)
    decreases |keys|
  {
    if keys != [] {
      var n := |keys| - 1;
      GivenInOrder(list, keys[..n], sum);
      assert list[..n + 1][..n] == list[..n];
    }
  }

  ghost predicate InRange(list: seq<Payout>, keys: seq<int>) {
    forall i :: 0 <= i < |keys| ==> 0 <= keys[i] < |list|
  }

  lemma {:induction false} GivenByConcat(list: seq<Payout>, a: seq<int>, b: seq<int>, sum: Sum)
    requires InRange(list, a) && InRange(list, b)
    ensures GivenBy(list, a + b, sum) == GivenBy(list, a, sum) + GivenBy(list, b, sum)
    decreases |b|
  {
    if b == [] {
      assert a + b == a;
    } else {
      var c := b[..|b| - 1];
      assert (a + b)[..|a + b| - 1] == a + c;
      GivenByConcat(list, a, c, sum);
    }
  }

  lemma GivenWithout(list: seq<Payout>, keys: seq<int>, j: nat, sum: Sum)
    requires j < |keys| && InRange(list, keys)
    ensures GivenBy(list, keys, sum) == GivenBy(list, keys[..j] + keys[j + 1..], sum) + Share(list[keys[j]], sum)
  {
    var low, high := keys[..j], keys[j + 1..];
    assert keys == (low + [keys[j]]) + high;
    GivenByConcat(list, low + [keys[j]], high, sum);
    assert (low + [keys[j]])[..j] == low;
    GivenByConcat(list, low, high, sum);
  }

  lemma WithoutOne(s: seq<int>, j: nat)
    requires j < |s|
    ensures multiset(s[..j] + s[j + 1..]) == multiset(s) - multiset{s[j]}
  {
    assert s == s[..j] + [s[j]] + s[j + 1..];
  }

  lemma WithoutLast(s: seq<int>)
    requires s != []
    ensures multiset(s[..|s| - 1]) == multiset(s) - multiset{s[|s| - 1]}
  {
    assert s == s[..|s| - 1] + [s[|s| - 1]];
  }

  lemma SameWithout(a: seq<int>, b: seq<int>, j: nat)
    requires multiset(a) == multiset(b) && a != [] && j < |b| && b[j] == a[|a| - 1]
    ensures multiset(a[..|a| - 1]) == multiset(b[..j] + b[j + 1..])
  {
    WithoutOne(b, j);
    WithoutLast(a);
  }

  lemma SameSize(a: seq<int>, b: seq<int>)
    requires multiset(a) == multiset(b)
    ensures |a| == |b| && forall x :: x in a ==> x in multiset(b)
  {
    assert |a| == |multiset(a)| == |multiset(b)| == |b|;
    assert forall x :: x in a ==> x in multiset(a);
  }

  lemma RangeWithout(list: seq<Payout>, keys: seq<int>, j: nat)
    requires j < |keys| && InRange(list, keys)
    ensures InRange(list, keys[..j] + keys[j + 1..])
  {}

  ghost function IndexOf(s: seq<int>, x: int): (j: nat)
    requires x in multiset(s)
    ensures j < |s| && s[j] == x
  {
    assert x in s;
    var j: nat :| j < |s| && s[j] == x;
    j
  }

  /** The order of the keys does not matter. */
  lemma {:induction false} GivenInAnyOrder(list: seq<Payout>, a: seq<int>, b: seq<int>, sum: Sum)
    requires multiset(a) == multiset(b) && InRange(list, a) && InRange(list, b)
    ensures GivenBy(list, a, sum) == GivenBy(list, b, sum)
    decreases |a|
  {
    SameSize(a, b);
    if a != [] {
      var n := |a| - 1;
      var j := IndexOf(b, a[n]);
      var init, rest := a[..n], b[..j] + b[j + 1..];
      SameWithout(a, b, j);
      RangeWithout(list, b, j);
      GivenInAnyOrder(list, init, rest, sum);
      GivenWithout(list, b, j, sum);
    }
  }

  lemma ShuffledKeysAreKeys(keys: seq<int>, shuffled: seq<int>)
    requires multiset(shuffled) == multiset(keys) && forall i :: 0 <= i < |keys| ==> keys[i] == i
    ensures |shuffled| == |keys| && forall i :: 0 <= i < |shuffled| ==> 0 <= shuffled[i] < |keys|
  {
    assert |multiset(shuffled)| == |shuffled|;
    forall i | 0 <= i < |shuffled| ensures 0 <= shuffled[i] < |keys| {
      assert shuffled[i] in multiset(shuffled);
      assert shuffled[i] in keys;
    }
  }

  lemma {:induction false} SlicesAreSpreadable(data: seq<Payout>, unit: int, quota: int)
    requires AllSliceable(data, unit) && AllSpreadable(data, quota)
    ensures AllSpreadable(AllSlices(data, unit), quota)
    decreases |data|
  {
    if data != [] {
      SlicesAreSpreadable(data[..|data| - 1], unit, quota);
      OneIsSpreadable(data[|data| - 1], unit, quota);
    }
  }

  lemma {:induction false} OneIsSpreadable(v: Payout, unit: int, quota: int)
    requires Sliceable(v, unit) && Spreadable(v, quota)
    ensures AllSpreadable(Slices(v, unit), quota)
    decreases v.amount
  {
    if Locked(v) && v.amount > unit {
      OneIsSpreadable(v.(amount := v.amount - unit), unit, quota);
    }
  }

  /** Slicing and shuffling keep every sum. */
  lemma GivenToAll(data: seq<Payout>, unit: int, keys: seq<int>, shuffled: seq<int>, sum: Sum)
    requires AllSliceable(data, unit) && multiset(shuffled) == multiset(keys)
    requires |keys| == |AllSlices(data, unit)| && forall i :: 0 <= i < |keys| ==> keys[i] == i
    requires InRange(AllSlices(data, unit), shuffled)
    ensures GivenBy(AllSlices(data, unit), shuffled, sum) == Given(data, sum)
  {
    var list := AllSlices(data, unit);
    GivenInAnyOrder(list, shuffled, keys, sum);
    GivenInOrder(list, keys, sum);
    assert list[..|keys|] == list;
    SlicingConserves(data, unit, sum);
  }

  /** The whole pipeline: every address is paid exactly what payouts of a known kind give it, which is
      all it was given iff its payouts of other kinds add up to nothing; every lock height below the last
      is filled to the quota; the sum check passes iff the expected sum is that of the known kinds. */
  method GeneratePayouts(data: seq<Payout>, seed: seq<bv8>, unit: int, quota: int, step: int, originAmount: int)
    returns (ok: bool, outs: seq<Paid>, ghost days: nat, ghost used: int)
    requires AllSliceable(data, unit) && AllSpreadable(data, quota) && step > 0 && |seed| >= 32
    ensures forall who :: PaidTo(outs, who) == Given(data, Sum(who, Known))
    ensures forall who :: PaidTo(outs, who) == Given(data, Sum(who, All)) <==> Given(data, Sum(who, Unknown)) == 0
    ensures Filled(outs, quota, step, days, used)
    ensures ok <==> originAmount == Given(data, Sum(Everyone, Known))
    ensures KnownLines(outs)
    ensures forall who :: PaidAs(outs, Sum(who, Free)) == Given(data, Sum(who, Free))
    ensures forall who, h :: PaidAs(outs, Sum(who, Until(h))) == Given(data, Sum(who, Until(h)))
    ensures forall who :: PaidAs(outs, Sum(who, Daily)) == Given(data, Sum(who, Daily))
    ensures LockedAt(outs, days * step) == used && forall d :: 0 <= d < days ==> LockedAt(outs, d * step) == quota
  {
    var list, keys := SliceAll(data, unit);
    SlicesAreSpreadable(data, unit, quota);
    var a := new int[|keys|](i requires 0 <= i < |keys| => keys[i]);
    assert a[..] == keys;
    GenesisShuffle(a, seed);
    ShuffledKeeps(keys, |keys| - 1, seed);
    ShuffledKeysAreKeys(keys, a[..]);
    assert forall i :: 0 <= i < |list| ==> list[i] in list;
    var genesisAmount;
    outs, genesisAmount, days, used := Schedule(list, a[..], quota, step);
    forall who
      ensures PaidTo(outs, who) == Given(data, Sum(who, Known))
      ensures PaidTo(outs, who) == Given(data, Sum(who, All)) <==> Given(data, Sum(who, Unknown)) == 0
    {
      GivenToAll(data, unit, keys, a[..], Sum(who, Known));
      KindsAddUp(data, who);
    }
    forall d | 0 <= d < days ensures LockedAt(outs, d * step) == quota {
      FullDay(outs, quota, step, days, used, d);
    }
    forall s | OneKind(s) ensures PaidAs(outs, s) == Given(data, s) {
      GivenToAll(data, unit, keys, a[..], s);
    }
    ok := originAmount == genesisAmount;
  }

  /** A payout of any other kind is kept by the slicing and then never paid. */
  lemma UnknownKindIsLost(v: Payout, unit: int)
    requires Sliceable(v, unit) && !Paying(v)
    ensures var who := Holder(v.coin, v.address);
      && Given(AllSlices([v], unit), Sum(who, All)) == Given([v], Sum(who, All)) == v.amount
      && Given([v], Sum(who, Known)) == 0
  {
    var who := Holder(v.coin, v.address);
    SlicingConserves([v], unit, Sum(who, All));
    GivenOne(v, Sum(who, All));
    GivenOne(v, Sum(who, Known));
  }
}
