/** The two lists that adding a block reports: the blocks that lost their
    number and the blocks that got one. */
module EditScript {
  import opened Dag

  /** A block that lost its number, and the number it had. */
  datatype OldEntry = OldEntry(id: Id, order: nat)

  /** The old entries of `line` from position `first` on. */
  ghost function Entries(line: seq<Id>, first: nat): seq<OldEntry>
    requires first <= |line|
  {
    seq(|line| - first, j requires 0 <= j < |line| - first => OldEntry(line[first + j], first + j))
  }

  /** Two orders with a common beginning: cut off the old rest, append the new one. */
  lemma EntriesAreScript(before: seq<Id>, after: seq<Id>, low: seq<Id>)
    requires low <= before && low <= after
    ensures Script(before, after, Entries(before, |low|), after[|low|..])
  {
    assert before[..|low|] == low;
    assert after == low + after[|low|..];
  }

  lemma EmptyScript(line: seq<Id>)
    ensures Script(line, line, [], [])
  {
    assert line[..|line|] + [] == line;
  }

  /** Cutting `olds` off the end of `before` and appending `news` gives `after`. */
  ghost predicate Script(before: seq<Id>, after: seq<Id>, olds: seq<OldEntry>, news: seq<Id>)
  {
    && |olds| <= |before|
    && (forall j :: 0 <= j < |olds| ==>
          olds[j] == OldEntry(before[|before| - |olds| + j], |before| - |olds| + j))
    && after == before[..|before| - |olds|] + news
  }

  /** Drops the common beginning of the two lists, as long as block and number agree. */
  method OptimizeReorganizeResult(news: seq<Id>, olds: seq<OldEntry>, orders: map<Id, nat>)
    returns (n: seq<Id>, o: seq<OldEntry>, ghost cut: nat)
    requires forall i :: 0 <= i < |news| ==> news[i] in orders
    ensures cut <= |news| && cut <= |olds| && n == news[cut..] && o == olds[cut..]
    ensures forall j :: 0 <= j < cut ==> news[j] == olds[j].id && orders[news[j]] == olds[j].order
    ensures n != [] && o != [] ==> n[0] != o[0].id || orders[n[0]] != o[0].order
  {
    var i := 0;
    while i < |news| && i < |olds| && news[i] == olds[i].id && orders[news[i]] == olds[i].order
      invariant i <= |news| && i <= |olds|
      invariant forall j :: 0 <= j < i ==> news[j] == olds[j].id && orders[news[j]] == olds[j].order
    {
      i := i + 1;
    }
    n, o, cut := news[i..], olds[i..], i;
  }

  /** Trimming keeps the script correct. */
  lemma TrimKeepsScript(before: seq<Id>, after: seq<Id>, olds: seq<OldEntry>, news: seq<Id>, cut: nat)
    requires Script(before, after, olds, news) && cut <= |news| && cut <= |olds|
    requires forall j :: 0 <= j < cut ==> news[j] == olds[j].id
    ensures Script(before, after, olds[cut..], news[cut..])
  {
    var keep := |before| - |olds|;
    assert before[..keep + cut] == before[..keep] + news[..cut];
    assert news == news[..cut] + news[cut..];
  }

  /** Applies a list of scripts one after the other. */
  ghost function Replay(line: seq<Id>, scripts: seq<(seq<OldEntry>, seq<Id>)>): seq<Id>
    decreases |scripts|
  {
    if scripts == [] then line
    else
      var s := scripts[0];
      Replay((if |s.0| <= |line| then line[..|line| - |s.0|] else []) + s.1, scripts[1..])
  }

  lemma {:induction false} ReplaySnoc(line: seq<Id>, scripts: seq<(seq<OldEntry>, seq<Id>)>, before: seq<Id>,
                                      after: seq<Id>, olds: seq<OldEntry>, news: seq<Id>)
    requires Replay(line, scripts) == before && Script(before, after, olds, news)
    ensures Replay(line, scripts + [(olds, news)]) == after
    decreases |scripts|
  {
    var all := scripts + [(olds, news)];
    if scripts == [] {
      assert all[1..] == [];
    } else {
      assert all[1..] == scripts[1..] + [(olds, news)];
      var s := scripts[0];
      var next := (if |s.0| <= |line| then line[..|line| - |s.0|] else []) + s.1;
      ReplaySnoc(next, scripts[1..], before, after, olds, news);
    }
  }
}
