/** Synchronisation with a peer: a short list of main-chain blocks to find the
    last common one, and batches of the order after it. */
module Sync {
  import opened Dag
  import opened Blue
  import opened Spec
  import opened State

  const MAX_MAIN_LOCATOR_NUM: nat := 32
  const DEFAULT_MAIN_LOCATOR_NUM: nat := 10

  /** The first block of the main-parent chain of `b` that is on the main chain. */
  ghost predicate IsMeeting(g: Graph, main: set<Id>, b: Id, e: Id)
    requires b in g
  {
    e in main && exists i :: MeetsAt(g, main, b, e, i)
  }

  ghost predicate MeetsAt(g: Graph, main: set<Id>, b: Id, e: Id, i: nat)
    requires b in g
  {
    i < |Chain(g, b)| && Chain(g, b)[i] == e && forall j :: 0 <= j < i ==> Chain(g, b)[j] !in main
  }

  /** Walks down main parents until the main chain is met. */
  method WalkToMain(g: Graph, main: set<Id>, b: Id) returns (e: Id)
    requires b in g && 0 in main
    ensures e in g && IsMeeting(g, main, b, e)
  {
    e := b;
    ghost var i := 0;
    while e !in main
      invariant e in g && i < |Chain(g, b)| && Chain(g, b)[i] == e
      invariant forall j :: 0 <= j < i ==> Chain(g, b)[j] !in main
      decreases e
    {
      ChainAt(g, b, i);
      e, i := g[e].mainParent, i + 1;
    }
    assert MeetsAt(g, main, b, e, i);
  }

  /** Strictly increasing main-chain blocks strictly between `low` and `high`. */
  ghost predicate Rising(main: set<Id>, s: seq<Id>, low: Id, high: Id)
  {
    && (forall i :: 0 <= i < |s| ==> s[i] in main && low < s[i] < high)
    && (forall i, j :: 0 <= i < j < |s| ==> s[i] < s[j])
  }

  /** The last `n` entries are the first `n` of the chain, backwards. */
  ghost predicate EndsWithNewest(chain: seq<Id>, locator: seq<Id>, n: nat)
  {
    n <= |locator| && n < |chain| && forall i :: 0 <= i < n ==> locator[|locator| - 1 - i] == chain[i]
  }

  /** The newest main-chain blocks above the common one, oldest first. */
  method Newest(g: Graph, main: set<Id>, tip: Id, end: Id) returns (locator: seq<Id>, cur: Id)
    requires tip in g && end in g && main == Elems(Chain(g, tip))
    ensures cur in g && |locator| <= DEFAULT_MAIN_LOCATOR_NUM
    ensures Rising(main, locator, end, MAX_ID) && forall i :: 0 <= i < |locator| ==> cur < locator[i]
    ensures EndsWithNewest(Chain(g, tip), locator, |locator|)
    ensures |locator| < |Chain(g, tip)| && Chain(g, tip)[|locator|] == cur
    ensures |locator| == DEFAULT_MAIN_LOCATOR_NUM || cur <= end
  {
    locator, cur := [], tip;
    ghost var chain := Chain(g, tip);
    var i := 0;
    while i < DEFAULT_MAIN_LOCATOR_NUM && !(cur == 0 || g[cur].mainParent == MAX_ID || cur <= end)
      invariant i <= DEFAULT_MAIN_LOCATOR_NUM && |locator| == i
      invariant cur in g && Elems(Chain(g, cur)) <= main
      invariant Rising(main, locator, end, MAX_ID) && forall j :: 0 <= j < |locator| ==> cur < locator[j]
      invariant i < |chain| && chain[i] == cur && EndsWithNewest(chain, locator, i)
    {
      ChainAt(g, tip, i);
      OneMoreNewest(chain, locator, i);
      ChainOnMain(g, main, cur);
      RisingMore(main, locator, end, cur);
      locator, cur, i := [cur] + locator, g[cur].mainParent, i + 1;
    }
  }

  lemma OneMoreNewest(chain: seq<Id>, locator: seq<Id>, n: nat)
    requires EndsWithNewest(chain, locator, n) && |locator| == n && n + 1 < |chain|
    ensures EndsWithNewest(chain, [chain[n]] + locator, n + 1)
  {
    var more := [chain[n]] + locator;
    forall i | 0 <= i < n + 1 ensures more[|more| - 1 - i] == chain[i] {
      if i < n {
        assert locator[|locator| - 1 - i] == chain[i];
      }
    }
  }

  lemma ChainOnMain(g: Graph, main: set<Id>, b: Id)
    requires b in g && b != 0 && Elems(Chain(g, b)) <= main
    ensures b in main && Elems(Chain(g, g[b].mainParent)) <= main
  {
    HeadAndTail(Chain(g, b));
    assert b in Elems(Chain(g, b));
    assert forall x :: x in Chain(g, g[b].mainParent) ==> x in Elems(Chain(g, b));
  }

  lemma RisingMore(main: set<Id>, s: seq<Id>, low: Id, x: Id)
    requires Rising(main, s, low, MAX_ID) && x in main && low < x < MAX_ID && forall i :: 0 <= i < |s| ==> x < s[i]
    ensures Rising(main, [x] + s, low, MAX_ID)
  {}

  /** A main-chain block between `low` and `high`, at least half way up. */
  ghost predicate Upper(main: set<Id>, low: Id, high: Id, x: Id)
  {
    x in main && low < x < high && low + (high - low) / 2 <= x
  }

  ghost predicate FirstUpper(main: set<Id>, low: Id, high: Id, x: Id)
  {
    Upper(main, low, high, x) && forall y :: Upper(main, low, high, y) ==> x <= y
  }

  ghost predicate NoUpper(main: set<Id>, low: Id, high: Id)
  {
    forall y :: !Upper(main, low, high, y)
  }

  /** What stands before position `i` of `s`, which starts above `low`. */
  ghost function Lower(low: Id, s: seq<Id>, i: nat): Id
    requires i <= |s|
  {
    if i == 0 then low else s[i - 1]
  }

  ghost predicate Stepping(main: set<Id>, s: seq<Id>, low: Id, high: Id)
  {
    forall i {:trigger Lower(low, s, i)} :: 0 <= i < |s| ==> FirstUpper(main, Lower(low, s, i), high, s[i])
  }

  /** No candidate of the upper half above `low` is left out when the search has come to `at`. */
  ghost predicate Tried(main: set<Id>, low: Id, high: Id, at: Id)
  {
    low <= at < high && forall y :: Upper(main, low, high, y) ==> at == low || at + (high - at + 1) / 2 <= y
  }

  lemma StepOn(main: set<Id>, s: seq<Id>, low: Id, high: Id, x: Id)
    requires Stepping(main, s, low, high) && FirstUpper(main, Lower(low, s, |s|), high, x)
    ensures Stepping(main, s + [x], low, high)
  {
    forall i | 0 <= i < |s| + 1 ensures FirstUpper(main, Lower(low, s + [x], i), high, (s + [x])[i]) {
      assert Lower(low, s + [x], i) == Lower(low, s, i);
    }
  }

  lemma TryNext(main: set<Id>, low: Id, high: Id, at: Id)
    requires Tried(main, low, high, at) && at + 1 < high
    ensures var x := at + (high - at) / 2;
      if x in main then FirstUpper(main, low, high, x) else Tried(main, low, high, at + 1)
  {
    var x := at + (high - at) / 2;
    assert low + (high - low) / 2 <= x;
    if x !in main {
      forall y: Id | Upper(main, low, high, y) ensures at + 1 + (high - (at + 1) + 1) / 2 <= y {
        assert x <= y && x != y;
      }
    }
  }

  lemma NoneLeft(main: set<Id>, low: Id, high: Id, at: Id)
    requires Tried(main, low, high, at) && at + 1 >= high
    ensures NoUpper(main, low, high)
  {}

  /** `s` goes from `low` towards `high`: every entry is the first main-chain block in the upper half of what
      was left above the one before, and so on until `most` are found or the upper half has none. */
  ghost predicate Halved(main: set<Id>, s: seq<Id>, low: Id, high: Id, most: nat)
  {
    && |s| <= most
    && Stepping(main, s, low, high)
    && (|s| < most ==> NoUpper(main, Lower(low, s, |s|), high))
  }

  /** Main-chain blocks found by halving the distance in ids, again and again. */
  method Halves(g: Graph, main: set<Id>, halfStart: Id, end: Id, have: nat) returns (found: seq<Id>)
    requires main <= g.Keys && end < halfStart && have < MAX_MAIN_LOCATOR_NUM
    ensures Rising(main, found, end, halfStart) && have + |found| < MAX_MAIN_LOCATOR_NUM
    ensures Halved(main, found, end, halfStart, MAX_MAIN_LOCATOR_NUM - 1 - have)
  {
    found := [];
    var halfEnd := end;
    ghost var low := end;
    while have + |found| + 1 < MAX_MAIN_LOCATOR_NUM
      invariant low == Lower(end, found, |found|) && end <= low && Tried(main, low, halfStart, halfEnd)
      invariant have + |found| < MAX_MAIN_LOCATOR_NUM && Stepping(main, found, end, halfStart)
      invariant Rising(main, found, end, halfStart) && forall i :: 0 <= i < |found| ==> found[i] <= low
      decreases halfStart - halfEnd
    {
      var half := (halfStart - halfEnd) / 2;
      if half <= 0 {
        NoneLeft(main, low, halfStart, halfEnd);
        break;
      }
      var nextId := half + halfEnd;
      if nextId == halfStart || nextId == halfEnd {
        break;
      }
      TryNext(main, low, halfStart, halfEnd);
      if nextId !in main || nextId !in g {
        halfEnd := halfEnd + 1;
        continue;
      }
      StepOn(main, found, end, halfStart, nextId);
      found := found + [nextId];
      halfEnd, low := nextId, nextId;
    }
  }

  /** At most 32 main-chain blocks with growing ids, the first one the common block with the peer:
      where the main-parent chain of the peer's block meets the main chain, or block 0. */
  method GetMainLocator(g: Graph, ids: map<nat, Id>, main: set<Id>, tip: Id, point: nat)
    returns (locator: seq<Id>, ghost newer: nat)
    requires tip in g && main == Elems(Chain(g, tip)) && IdsStored(g, ids)
    ensures 1 <= |locator| <= 32
    ensures forall i :: 0 <= i < |locator| ==> locator[i] in main
    ensures forall i, j :: 0 <= i < j < |locator| ==> locator[i] < locator[j]
    ensures if point in ids then IsMeeting(g, main, ids[point], locator[0]) else locator[0] == 0
    ensures EndsWithNewest(Chain(g, tip), locator, newer)
    ensures newer == 10 || (newer < 10 && Chain(g, tip)[newer] <= locator[0])
    ensures newer < |locator| && if Chain(g, tip)[newer] <= locator[0] then |locator| == 1 + newer
      else Halved(main, locator[1..|locator| - newer], locator[0], Chain(g, tip)[newer], 31 - newer)
  {
    ChainBounds(g, tip);
    ConeBounds(g, tip);
    var end := 0;
    if point in ids {
      end := WalkToMain(g, main, ids[point]);
    }
    var newest, cur := Newest(g, main, tip, end);
    var older := [];
    if cur > end {
      older := Halves(g, main, cur, end, |newest|);
    }
    locator, newer := [end] + older + newest, |newest|;
    Stacked(main, end, older, newest, cur);
    NewestLast(Chain(g, tip), [end] + older, newest);
    assert locator[1..|locator| - newer] == older;
  }

  lemma NewestLast(chain: seq<Id>, low: seq<Id>, newest: seq<Id>)
    requires EndsWithNewest(chain, newest, |newest|)
    ensures EndsWithNewest(chain, low + newest, |newest|)
  {
    var all := low + newest;
    forall i | 0 <= i < |newest| ensures all[|all| - 1 - i] == chain[i] {
      assert newest[|newest| - 1 - i] == chain[i];
    }
  }

  lemma Stacked(main: set<Id>, end: Id, older: seq<Id>, newest: seq<Id>, cur: Id)
    requires end in main && Rising(main, newest, end, MAX_ID) && forall i :: 0 <= i < |newest| ==> cur < newest[i]
    requires older == [] || Rising(main, older, end, cur)
    ensures var all := [end] + older + newest;
      && (forall i :: 0 <= i < |all| ==> all[i] in main)
      && forall i, j :: 0 <= i < j < |all| ==> all[i] < all[j]
  {
    var all := [end] + older + newest;
    forall i | 0 <= i < |all|
      ensures all[i] == if i == 0 then end else if i < 1 + |older| then older[i - 1] else newest[i - 1 - |older|]
    {}
  }

  // ---------------------------------------------------------------- batches

  ghost predicate OnMain(ids: map<nat, Id>, main: set<Id>, hash: nat) {
    hash in ids && ids[hash] in main
  }

  ghost predicate LastOnMain(ids: map<nat, Id>, main: set<Id>, locator: seq<nat>, i: nat)
    requires i < |locator|
  {
    OnMain(ids, main, locator[i]) && forall j :: i < j < |locator| ==> !OnMain(ids, main, locator[j])
  }

  /** The last listed hash that is on the main chain; otherwise where the first one meets it;
      otherwise block 0. */
  ghost predicate IsPoint(g: Graph, ids: map<nat, Id>, main: set<Id>, locator: seq<nat>, point: Id)
    requires IdsStored(g, ids)
  {
    if exists i :: 0 <= i < |locator| && OnMain(ids, main, locator[i])
    then exists i :: 0 <= i < |locator| && LastOnMain(ids, main, locator, i) && point == ids[locator[i]]
    else if locator != [] && locator[0] in ids then IsMeeting(g, main, ids[locator[0]], point)
    else point == 0
  }

  /** Finds the point from which a peer with this locator has to be served. */
  method FindPoint(g: Graph, ids: map<nat, Id>, main: set<Id>, locator: seq<nat>) returns (point: Id)
    requires IdsStored(g, ids) && 0 in g && 0 in main
    ensures point in main && point in g && IsPoint(g, ids, main, locator, point)
  {
    var i := |locator| - 1;
    while i >= 0
      invariant -1 <= i < |locator|
      invariant forall j :: i < j < |locator| ==> !OnMain(ids, main, locator[j])
    {
      if locator[i] in ids && ids[locator[i]] in main {
        assert OnMain(ids, main, locator[i]) && LastOnMain(ids, main, locator, i);
        return ids[locator[i]];
      }
      i := i - 1;
    }
    point := 0;
    if |locator| > 0 && locator[0] in ids {
      point := WalkToMain(g, main, ids[locator[0]]);
    }
  }

  /** `rest` cut off at the limit; at least one block is sent. */
  ghost function Cut(rest: seq<Id>, limit: nat): seq<Id> {
    var most := if limit == 0 then 1 else limit;
    if most < |rest| then rest[..most] else rest
  }

  /** The order after the point, cut off at the limit. */
  ghost function Batch(g: Graph, k: nat, tip: Id, point: Id, limit: nat): (r: seq<Id>)
    requires Wf(g, k) && tip in g && point in Chain(g, tip) && point in g
  {
    OrderPrefix(g, k, tip, point);
    Cut(Order(g, k, tip)[|Order(g, k, point)|..], limit)
  }

  /** Reads the order index from one number to another. */
  method ReadIndex(g: map<Id, Node>, index: map<nat, Id>, first: nat, last: nat, limit: nat, ghost line: seq<Id>)
    returns (batch: seq<Id>)
    requires IndexHolds(line, index) && (forall x :: x in line ==> x in g) && last == |line| - 1 && first <= |line|
    ensures batch == Cut(line[first..], limit)
  {
    batch := [];
    var i := first;
    while i <= last
      invariant first <= i <= |line| && batch == line[first..i]
      invariant |batch| == 0 || |batch| < limit
    {
      assert line[i] in line && line[first..i + 1] == line[first..i] + [line[i]];
      if i in index && index[i] in g {
        batch := batch + [index[i]];
        if |batch| >= limit {
          assert batch == line[first..][..|batch|];
          return;
        }
      }
      i := i + 1;
    }
    assert line[first..i] == line[first..];
  }

  /** The numbers of a chain block and of the main tip. */
  lemma PointIsAt(m: Mem, k: nat, point: Id)
    requires MemOk(m, k) && m.total > 0 && m.mainTip in m.g && point in m.g && point in Chain(m.g, m.mainTip)
    ensures m.orders[point] + 1 == |Order(m.g, k, point)| <= |Line(m, k)| == m.orders[m.mainTip] + 1
    ensures forall x :: x in Line(m, k) ==> x in m.g
  {
    var line, low := Line(m, k), Order(m.g, k, point);
    OrderPrefix(m.g, k, m.mainTip, point);
    OrderIsCone(m.g, k, point);
    OrderIsCone(m.g, k, m.mainTip);
    assert line[|low| - 1] == point && line[|line| - 1] == m.mainTip;
    ConeBounds(m.g, m.mainTip);
    assert forall x :: x in line ==> x in Elems(line);
  }

  /** Entry `j` of a batch is the block whose number is `j + 1` more than that of the point, and the batch is as
      long as the limit and the rest of the order allow; with a limit of 0 one block is sent. */
  ghost predicate NextNumbers(m: Mem, point: Id, limit: nat, batch: seq<Id>)
    requires m.mainTip in m.orders && point in m.orders
  {
    && (var at, last := m.orders[point], m.orders[m.mainTip];
        at + |batch| ==
          if last <= at + limit || last <= at + 1 then last else if limit == 0 then at + 1 else at + limit)
    && forall j :: 0 <= j < |batch| ==> batch[j] in m.orders && m.orders[batch[j]] == m.orders[point] + 1 + j
  }

  lemma BatchIsNext(m: Mem, k: nat, point: Id, limit: nat)
    requires MemOk(m, k) && m.total > 0 && m.mainTip in m.g && point in m.g && point in Chain(m.g, m.mainTip)
    ensures NextNumbers(m, point, limit, Batch(m.g, k, m.mainTip, point, limit))
  {
    PointIsAt(m, k, point);
    CutNumbers(Line(m, k), m.orders, |Order(m.g, k, point)|, limit);
  }

  lemma CutNumbers(line: seq<Id>, orders: map<Id, nat>, first: nat, limit: nat)
    requires Numbering(line, orders) && first <= |line|
    ensures var batch := Cut(line[first..], limit);
      && |batch| == (var most := if limit == 0 then 1 else limit;
                     if first + most < |line| then most else |line| - first)
      && forall j :: 0 <= j < |batch| ==> batch[j] in orders && orders[batch[j]] == first + j
  {
    var batch := Cut(line[first..], limit);
    forall j | 0 <= j < |batch| ensures batch[j] in orders && orders[batch[j]] == first + j {
      assert batch[j] == line[first + j];
    }
  }

  /** What is sent to a peer that has the closed past of the point. */
  method GetBlockChainFromMain(m: Mem, k: nat, index: map<nat, Id>, point: Id, limit: nat) returns (batch: seq<Id>)
    requires MemOk(m, k) && m.total > 0 && IndexHolds(Line(m, k), index)
    requires m.mainTip in m.g && point in m.g && point in Chain(m.g, m.mainTip)
    ensures batch == Batch(m.g, k, m.mainTip, point, limit) && NextNumbers(m, point, limit, batch)
  {
    PointIsAt(m, k, point);
    BatchIsNext(m, k, point, limit);
    batch := ReadIndex(m.g, index, m.orders[point] + 1, m.orders[m.mainTip], limit, Line(m, k));
  }

  /** Answers a peer: finds the point of its locator and sends the order after it. */
  method CalcSyncBlocks(m: Mem, k: nat, db: Db, locator: seq<nat>, limit: nat) returns (batch: seq<Id>, point: Id)
    requires MemOk(m, k) && m.total > 0 && DbOk(m, k, db)
    ensures m.mainTip in m.g && point in m.g && point in Chain(m.g, m.mainTip) && IdsStored(m.g, db.ids)
    ensures IsPoint(m.g, db.ids, Elems(Chain(m.g, m.mainTip)), locator, point)
    ensures batch == Batch(m.g, k, m.mainTip, point, limit) && NextNumbers(m, point, limit, batch)
  {
    MainTipFacts(m, k);
    GenesisInChain(m.g, m.mainTip);
    GenesisInCone(m.g, m.mainTip);
    point := FindPoint(m.g, db.ids, db.mainChain, locator);
    batch := GetBlockChainFromMain(m, k, db.order, point, limit);
  }

  lemma CutIsPart(rest: seq<Id>, limit: nat, j: nat)
    requires j < |Cut(rest, limit)|
    ensures j < |rest| && Cut(rest, limit)[j] == rest[j] && Cut(rest, limit)[..j] == rest[..j]
  {}

  /** A peer that has the closed past of the point can add the blocks of a batch one by one:
      every parent is there already or comes earlier in the batch. */
  lemma BatchIsParentClosed(g: Graph, k: nat, tip: Id, point: Id, limit: nat, j: nat, p: Id)
    requires Wf(g, k) && tip in g && point in Chain(g, tip) && point in g
    requires j < |Batch(g, k, tip, point, limit)|
    requires var b := Batch(g, k, tip, point, limit)[j]; b in g && p in g[b].parents
    ensures p in Cone(g, point) || p in Batch(g, k, tip, point, limit)[..j]
  {
    var line, low := Order(g, k, tip), Order(g, k, point);
    OrderPrefix(g, k, tip, point);
    var rest, i := line[|low|..], |low| + j;
    CutIsPart(rest, limit, j);
    BeforeInLine(line, low, j);
    OrderIsTopological(g, k, tip, i, p);
    assert Elems(low) == Cone(g, point) by {
      OrderIsCone(g, k, point);
    }
    assert p in low ==> p in Elems(low);
  }

  lemma BeforeInLine(line: seq<Id>, low: seq<Id>, j: nat)
    requires low <= line && j < |line| - |low|
    ensures line[|low| + j] == line[|low|..][j]
    ensures forall p :: p in line[..|low| + j] ==> p in low || p in line[|low|..][..j]
  {
    assert line[..|low| + j] == low + line[|low|..][..j];
  }

  lemma RestIsNew(line: seq<Id>, low: seq<Id>)
    requires low <= line && NoDup(line)
    ensures NoDup(line[|low|..]) && Elems(line[|low|..]) <= Elems(line) - Elems(low)
  {
    var rest := line[|low|..];
    forall x | x in Elems(rest) ensures x in line && x !in low {
      var j :| 0 <= j < |rest| && rest[j] == x;
      assert line[|low| + j] == x;
      assert forall i :: 0 <= i < |low| ==> low[i] == line[i] && line[i] != line[|low| + j];
    }
  }

  lemma CutIsNew(rest: seq<Id>, limit: nat)
    requires NoDup(rest)
    ensures NoDup(Cut(rest, limit)) && Elems(Cut(rest, limit)) <= Elems(rest)
    ensures Cut(rest, limit) == [] <==> rest == []
  {}

  /** Every batch brings something new, as long as the point is not the main tip. */
  lemma BatchIsNew(g: Graph, k: nat, tip: Id, point: Id, limit: nat)
    requires Wf(g, k) && tip in g && point in Chain(g, tip) && point in g
    ensures NoDup(Batch(g, k, tip, point, limit))
    ensures Elems(Batch(g, k, tip, point, limit)) <= Cone(g, tip) - Cone(g, point)
    ensures Batch(g, k, tip, point, limit) == [] <==> point == tip
  {
    var line, low, batch := Order(g, k, tip), Order(g, k, point), Batch(g, k, tip, point, limit);
    OrderPrefix(g, k, tip, point);
    OrderIsCone(g, k, tip);
    OrderIsCone(g, k, point);
    RestIsNew(line, low);
    CutIsNew(line[|low|..], limit);
    if line[|low|..] == [] {
      assert line == low;
    }
  }
}
