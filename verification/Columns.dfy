/**
 What a reader finds in the printed lists: the items between the commas, the columns of the PID
 list and their sums, and the keys of the two lists of losses.
 */
module Columns {
  import opened Bytes
  import opened Header
  import opened Continuity
  import opened LossBound
  import opened PidIndependence
  import opened Reassembly
  import opened DropLists
  import opened GroupBy
  import opened Sums
  import opened Calendar
  import opened Analysis
  import opened Accounting
  import opened Views
  import opened Report

  // ---------------------------------------------------------------- items

  /** The items of a list, without its commas. */
  function Items<T>(ts: seq<Token<T>>): seq<T> {
    if ts == [] then []
    else Items(ts[..|ts| - 1]) + if ts[|ts| - 1].Item? then [ts[|ts| - 1].value] else []
  }

  lemma ItemsSnoc<T>(ts: seq<Token<T>>, t: Token<T>)
    ensures Items(ts + [t]) == Items(ts) + if t.Item? then [t.value] else []
  {
    assert (ts + [t])[..|ts|] == ts;
  }

  lemma ItemsOfNone<T>()
    ensures Items<T>([]) == []
  {}

  /** A joined list reads back as what was joined. */
  lemma {:induction false} ItemsOfJoined<T>(xs: seq<T>)
    ensures Items(Joined(xs)) == xs
    decreases |xs|
  {
    hide Items;
    if xs == [] {
      ItemsOfNone<T>();
    } else if |xs| == 1 {
      ItemsOfNone<T>();
      ItemsSnoc([], Item(xs[0]));
      assert [] + [Item(xs[0])] == Joined(xs);
    } else {
      var n := |xs| - 1;
      ItemsOfJoined(xs[..n]);
      ItemsSnoc(Joined(xs[..n]), Comma);
      ItemsSnoc(Joined(xs[..n]) + [Comma], Item(xs[n]));
      assert Joined(xs) == Joined(xs[..n]) + [Comma] + [Item(xs[n])];
    }
  }

  // ---------------------------------------------------------------- columns

  /** A line's column of this kind. */
  function Cell(l: PidLine, kind: Kind): nat {
    match kind
    case Drop => l.drop
    case Error => l.error
    case Scrambling => l.scrambling
  }

  function Column(ls: seq<PidLine>, kind: Kind): (xs: seq<int>)
    ensures |xs| == |ls| && forall i :: 0 <= i < |ls| ==> xs[i] == Cell(ls[i], kind)
  {
    seq(|ls|, i requires 0 <= i < |ls| => Cell(ls[i], kind))
  }

  function TotalColumn(ls: seq<PidLine>): (xs: seq<int>)
    ensures |xs| == |ls| && forall i :: 0 <= i < |ls| ==> xs[i] == ls[i].total
  {
    seq(|ls|, i requires 0 <= i < |ls| => ls[i].total)
  }

  /** A PID without packets has nothing tallied. */
  predicate UnusedAreZero(counts: Counters) {
    forall pid, kind :: 0 <= pid < PID_COUNT && counts[pid].total == 0 ==> Tally(counts[pid], kind) == 0
  }

  lemma UnusedTally(input: seq<Feed>, k: nat, pid: nat, kind: Kind)
    requires k <= |input| && pid < PID_COUNT && After(input, k).counts[pid].total == 0
    ensures Tally(After(input, k).counts[pid], kind) == 0
  {
    hide After, Accepted, OfPid, LossBound.Count;
    EntriesAreIndependent(input, k, pid);
    RunInvariant(OfPid(Accepted(input, k), pid));
  }

  lemma UnusedInRuns(input: seq<Feed>, k: nat)
    requires k <= |input|
    ensures UnusedAreZero(After(input, k).counts)
  {
    hide After, Tally;
    forall pid, kind | 0 <= pid < PID_COUNT && After(input, k).counts[pid].total == 0
      ensures Tally(After(input, k).counts[pid], kind) == 0
    {
      UnusedTally(input, k, pid, kind);
    }
  }

  lemma OneLineMore(ls: seq<PidLine>, l: PidLine, kind: Kind)
    ensures Sum(Column(ls + [l], kind)) == Sum(Column(ls, kind)) + Cell(l, kind)
    ensures Sum(TotalColumn(ls + [l])) == Sum(TotalColumn(ls)) + l.total
  {
    hide Sum;
    assert Column(ls + [l], kind) == Column(ls, kind) + [Cell(l, kind)];
    SumSnoc(Column(ls, kind), Cell(l, kind));
    assert TotalColumn(ls + [l]) == TotalColumn(ls) + [l.total];
    SumSnoc(TotalColumn(ls), l.total);
  }

  lemma NoLines(kind: Kind)
    ensures Sum(Column([], kind)) == 0 && Sum(TotalColumn([])) == 0
  {}

  lemma LineCells(pid: nat, c: DropCount, kind: Kind)
    ensures Cell(LineOf(pid, c), kind) == Tally(c, kind)
    ensures LineOf(pid, c).total == c.total
  {}

  lemma OnePidMore(xs: seq<int>, n: nat)
    requires n < |xs|
    ensures Sum(xs[..n + 1]) == Sum(xs[..n]) + xs[n]
  {
    hide Sum;
    assert xs[..n + 1] == xs[..n] + [xs[n]];
    SumSnoc(xs[..n], xs[n]);
  }

  lemma NothingSummed(xs: seq<int>)
    ensures Sum(xs[..0]) == 0
  {}

  lemma {:induction false} ColumnSums(counts: Counters, n: nat, kind: Kind)
    requires n <= PID_COUNT && UnusedAreZero(counts)
    ensures Sum(Column(UsedLines(counts, n), kind)) == Sum(Tallies(counts, kind)[..n])
    ensures Sum(TotalColumn(UsedLines(counts, n))) == Sum(Totals(counts)[..n])
    decreases n
  {
    hide Sum, Column, TotalColumn, LineOf, Tally, Cell;
    if n == 0 {
      NoLines(kind);
      NothingSummed(Tallies(counts, kind));
      NothingSummed(Totals(counts));
    } else {
      var c, ls := counts[n - 1], UsedLines(counts, n - 1);
      ColumnSums(counts, n - 1, kind);
      OnePidMore(Tallies(counts, kind), n - 1);
      OnePidMore(Totals(counts), n - 1);
      OneLineMore(ls, LineOf(n - 1, c), kind);
      LineCells(n - 1, c, kind);
      assert ls + [] == ls;
    }
  }

  /** Each printed column sums to the tallies of all PIDs. */
  lemma PrintedColumns(input: seq<Feed>, k: nat, kind: Kind)
    requires k <= |input|
    ensures var counts := After(input, k).counts; var ls := UsedLines(counts, PID_COUNT);
      && Sum(Column(ls, kind)) == Sum(Tallies(counts, kind))
      && Sum(TotalColumn(ls)) == Sum(Totals(counts))
  {
    hide After, UsedLines, Column, TotalColumn, UnusedAreZero, Sum;
    var counts := After(input, k).counts;
    UnusedInRuns(input, k);
    ColumnSums(counts, PID_COUNT, kind);
    assert Tallies(counts, kind)[..PID_COUNT] == Tallies(counts, kind);
    assert Totals(counts)[..PID_COUNT] == Totals(counts);
  }

  // ---------------------------------------------------------------- keys

  /** A time key is one of the times, or says that there was none. */
  predicate IsTimeKey(key: Key, times: seq<Tm>) {
    key == Unknown || exists i :: 0 <= i < |times| && key == Clock(times[i])
  }

  lemma IsTimeKeyGrows(key: Key, times: seq<Tm>, more: seq<Tm>)
    requires IsTimeKey(key, times)
    ensures IsTimeKey(key, times + more)
  {
    if key != Unknown {
      var i :| 0 <= i < |times| && key == Clock(times[i]);
      assert (times + more)[i] == times[i];
    }
  }

  lemma KeyAfterIsTimeKey(times: seq<Tm>)
    ensures IsTimeKey(KeyAfter(times), times)
  {}

  lemma AddAtKey(input: seq<Feed>, i: nat, key: Key)
    requires i < |input|
    ensures AddAt(input, i, key).key == key
  {
    hide After, Loses, HasError, IsScrambled, Pid;
  }

  lemma {:induction false} TimeKeys(input: seq<Feed>, k: nat)
    requires k <= |input|
    ensures forall key :: key in FirstSeen(TotAdds(input, k)) ==> IsTimeKey(key, Times(input, k))
    decreases k
  {
    hide Anomaly, After, AddAt, KeyAfter, TimesAt, IsTimeKey, FirstSeen;
    if k > 0 {
      var before, times := TotAdds(input, k - 1), Times(input, k - 1);
      var key := KeyAfter(times);
      TimeKeys(input, k - 1);
      KeyAfterIsTimeKey(times);
      AddAtKey(input, k - 1, key);
      FirstSeenSnoc(before, AddAt(input, k - 1, key));
      forall x | x in FirstSeen(before) || x == key
        ensures IsTimeKey(x, Times(input, k))
      {
        IsTimeKeyGrows(x, times, TimesAt(input, k - 1));
      }
    } else {
      NoneSeen();
    }
  }

  /** At most 100 lines, each under a larger percentage than the one before, all below 100. */
  predicate PercentagesAscend(es: seq<Entry>) {
    && |es| <= 100
    && (forall i :: 0 <= i < |es| ==> es[i].key.Percent? && es[i].key.n < 100)
    && forall i, j :: 0 <= i < j < |es| ==> es[i].key.Percent? && es[j].key.Percent? && es[i].key.n < es[j].key.n
  }

  lemma PercentListShort(input: seq<Feed>, k: nat)
    requires k <= |input|
    ensures PercentagesAscend(After(input, k).losses.byPercent)
  {
    hide After, PercentAdds, ListOf, FirstSeen, OfKey, Landed, GroupBy.Count;
    var adds := PercentAdds(input, k);
    ListsAreAdds(input, k);
    AddsAreUnit(input, k);
    PercentsAscend(input, k);
    AscendingShort(FirstSeen(adds));
    ListIsGroupBy(adds);
  }
}
