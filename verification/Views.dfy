/**
 The three views of the losses - per PID, per percentile of the file and per broadcast time -
 and what each loss is filed under.
 */
module Views {
  import opened Bytes
  import BitReader
  import opened Header
  import opened Continuity
  import opened PidIndependence
  import opened SectionAssembly
  import opened Reassembly
  import opened DropLists
  import opened GroupBy
  import opened Calendar
  import opened Sums
  import opened Analysis
  import opened Accounting

  // ---------------------------------------------------------------- times

  /** Turn `i` completes a section that is taken for a time. */
  predicate TimeArrives(input: seq<Feed>, i: nat)
    requires i < |input|
  {
    Accepts(input, i) && CarriesTime(After(input, i).slots[Pid(input[i].packet)], input[i])
  }

  function TimesAt(input: seq<Feed>, i: nat): seq<Tm>
    requires i < |input|
  {
    if TimeArrives(input, i) then [TimeCarried(After(input, i).slots[Pid(input[i].packet)], input[i])] else []
  }

  /** The times completed by the first `k` packets, in order. */
  function Times(input: seq<Feed>, k: nat): seq<Tm>
    requires k <= |input|
  {
    if k == 0 then [] else Times(input, k - 1) + TimesAt(input, k - 1)
  }

  /** What a loss is filed under when these times have been seen. */
  function KeyAfter(times: seq<Tm>): Key {
    if times == [] then Unknown else Clock(times[|times| - 1])
  }

  lemma TimesHaveDays(s: Slot, f: Feed)
    requires SlotValid(s)
    ensures TimeCarried(s, f).date.mday >= 1
  {
    hide MjdToDate, StepEnabled, HexToDigi;
    MjdNext(BitReader.U16(Memory(StepEnabled(s, f).0.payload, f.around.behindBuffer).From(3), 0));
  }

  lemma StepTimes(st: State, f: Feed, i: nat, n: nat)
    requires i < n
    ensures var s, next := st.slots[Pid(f.packet)], StepState(st, f, i, n);
      if !st.notTs && !Bad(f) && CarriesTime(s, f)
      then next.currentTot == Clock(TimeCarried(s, f)) && next.lastTot == TimeCarried(s, f)
        && next.firstTot == (if st.firstTot.date.mday == 0 then TimeCarried(s, f) else st.firstTot)
      else next.currentTot == st.currentTot && next.lastTot == st.lastTot && next.firstTot == st.firstTot
  {
    hide Pid, CountAt, Logged, StepEnabled, CarriesTime, TimeCarried, CarriesPat, PatCarried, Gather;
    GatherChanges(Checked(st, f.packet, PercentOf(i, n)), f);
  }

  /** The state's times are the last, first and last of `ts`. */
  predicate Tracks(st: State, ts: seq<Tm>) {
    && st.currentTot == KeyAfter(ts)
    && st.firstTot == (if ts == [] then NO_TIME else ts[0])
    && st.lastTot == (if ts == [] then NO_TIME else ts[|ts| - 1])
    && forall i :: 0 <= i < |ts| ==> ts[i].date.mday >= 1
  }

  lemma TracksStep(st: State, ts: seq<Tm>, f: Feed, i: nat, n: nat)
    requires i < n && Tracks(st, ts)
    ensures var s := st.slots[Pid(f.packet)];
      Tracks(StepState(st, f, i, n),
             ts + if !st.notTs && !Bad(f) && CarriesTime(s, f) then [TimeCarried(s, f)] else [])
  {
    hide StepState, CarriesTime, TimeCarried, Pid, Bad;
    StepTimes(st, f, i, n);
    TimesHaveDays(st.slots[Pid(f.packet)], f);
  }

  lemma StartTimes()
    ensures Start().currentTot == Unknown && Start().firstTot == Start().lastTot == NO_TIME
  {
    hide Fresh, Idle, Wanted;
  }

  lemma StartTracks()
    ensures Tracks(Start(), [])
  {
    StartTimes();
  }

  /**
   The current, first and last time of every state are the last, first and last of the times
   completed so far; a date never has day 0, so the program's test for "no first time yet" is
   right.
   */
  lemma {:induction false} TimesAreTracked(input: seq<Feed>, k: nat)
    requires k <= |input|
    ensures Tracks(After(input, k), Times(input, k))
    decreases k
  {
    hide StepState, CarriesTime, TimeCarried, Pid, Bad, Tracks;
    if k > 0 {
      TimesAreTracked(input, k - 1);
      TracksStep(After(input, k - 1), Times(input, k - 1), input[k - 1], k - 1, |input|);
    } else {
      StartTracks();
    }
  }

  // ---------------------------------------------------------------- what is added to the lists

  /** Turn `i` finds an anomaly. */
  predicate Anomaly(input: seq<Feed>, i: nat)
    requires i < |input|
  {
    Accepts(input, i) && Anomalous(After(input, i).counts[Pid(input[i].packet)], input[i].packet)
  }

  function AddAt(input: seq<Feed>, i: nat, key: Key): Add
    requires i < |input|
  {
    AddOf(key, After(input, i).counts[Pid(input[i].packet)], input[i].packet)
  }

  /** Each anomaly under the last time completed strictly before its packet. */
  function TotAdds(input: seq<Feed>, k: nat): seq<Add>
    requires k <= |input|
  {
    if k == 0 then []
    else TotAdds(input, k - 1) + if Anomaly(input, k - 1) then [AddAt(input, k - 1, KeyAfter(Times(input, k - 1)))] else []
  }

  /** Each anomaly under its packet's percentile. */
  function PercentAdds(input: seq<Feed>, k: nat): seq<Add>
    requires k <= |input|
  {
    if k == 0 then []
    else PercentAdds(input, k - 1) + if Anomaly(input, k - 1) then [AddAt(input, k - 1, PercentOf(k - 1, |input|))] else []
  }

  lemma ListOfSnoc(adds: seq<Add>, a: Add)
    ensures ListOf(adds + [a]) == Added(ListOf(adds), a)
  {
    assert (adds + [a])[..|adds|] == adds;
  }

  lemma StepLosses(st: State, f: Feed, i: nat, n: nat)
    requires i < n
    ensures StepState(st, f, i, n).losses ==
      if !st.notTs && !Bad(f)
      then Logged(st.losses, st.counts[Pid(f.packet)], f.packet, st.currentTot, PercentOf(i, n))
      else st.losses
  {
    hide StepSynced, Logged, PercentOf;
    SyncedKeeps(st, f, PercentOf(i, n));
  }

  lemma StartLosses()
    ensures Start().losses == Losses([], [])
  {
    hide Fresh, Idle, Wanted;
  }

  /**
   Attribution: at every point the time list holds the anomalies filed under the last time
   completed strictly before each, and the percent list those filed under percentiles.
   */
  lemma {:induction false} ListsAreAdds(input: seq<Feed>, k: nat)
    requires k <= |input|
    ensures After(input, k).losses.byTot == ListOf(TotAdds(input, k))
    ensures After(input, k).losses.byPercent == ListOf(PercentAdds(input, k))
    decreases k
  {
    hide StepState, Added, AddOf, Pid, Bad, Anomalous, Times, KeyAfter, PercentOf;
    if k > 0 {
      var st, f := After(input, k - 1), input[k - 1];
      ListsAreAdds(input, k - 1);
      StepLosses(st, f, k - 1, |input|);
      TimesAreTracked(input, k - 1);
      if Anomaly(input, k - 1) {
        ListOfSnoc(TotAdds(input, k - 1), AddAt(input, k - 1, KeyAfter(Times(input, k - 1))));
        ListOfSnoc(PercentAdds(input, k - 1), AddAt(input, k - 1, PercentOf(k - 1, |input|)));
      } else {
        assert TotAdds(input, k) == TotAdds(input, k - 1);
        assert PercentAdds(input, k) == PercentAdds(input, k - 1);
      }
    } else {
      StartLosses();
    }
  }

  lemma {:induction false} AddsAreUnit(input: seq<Feed>, k: nat)
    requires k <= |input|
    ensures UnitAdds(TotAdds(input, k)) && UnitAdds(PercentAdds(input, k))
    decreases k
  {
    hide Anomaly, After, Loses, HasError, IsScrambled;
    if k > 0 {
      AddsAreUnit(input, k - 1);
    }
  }

  // ---------------------------------------------------------------- the percent list

  lemma {:induction false} DivMonotone(a: nat, b: nat, n: nat)
    requires a <= b && 0 < n
    ensures a / n <= b / n
  {
    assert a == (a / n) * n + a % n && b == (b / n) * n + b % n;
    if b / n < a / n {
      BitReader.MulLess(b / n, a / n, n, b % n);
    }
  }

  lemma DivBelow(a: nat, n: nat, m: nat)
    requires 0 < n && a < m * n
    ensures a / n < m
  {
    assert a == (a / n) * n + a % n;
    if m < a / n {
      BitReader.MulLess(m, a / n, n, 0);
    }
  }

  lemma {:induction false} PercentBounds(i: nat, j: nat, n: nat)
    requires i <= j < n
    ensures PercentOf(i, n).Percent? && PercentOf(j, n).Percent?
    ensures PercentOf(i, n).n <= PercentOf(j, n).n < 100
  {
    DivMonotone(i * 100, j * 100, n);
    DivBelow(j * 100, n, 100);
  }

  /** Packet `i` of `n` is in the `q`-th percentile of the file. */
  predicate InPercentile(i: nat, n: nat, q: nat) {
    q * n <= 100 * i < (q + 1) * n
  }

  lemma QuotientIs(a: nat, n: nat, q: nat)
    requires 0 < n
    ensures a / n == q <==> q * n <= a < (q + 1) * n
  {
    assert a == (a / n) * n + a % n;
    if q * n <= a < (q + 1) * n {
      BitReader.DivisionUnique(a / n, a % n, q, a - q * n, n);
    }
  }

  /** The key of packet `i` is the number of the percentile it is in. */
  lemma PercentIs(i: nat, n: nat, q: nat)
    requires i < n
    ensures PercentOf(i, n) == Percent(q) <==> q * n <= 100 * i < (q + 1) * n
  {
    QuotientIs(100 * i, n, q);
  }

  predicate Ascending(ks: seq<Key>) {
    && (forall i :: 0 <= i < |ks| ==> ks[i].Percent? && ks[i].n < 100)
    && (forall i, j :: 0 <= i < j < |ks| ==> ks[i].Percent? && ks[j].Percent? && ks[i].n < ks[j].n)
  }

  predicate UpTo(ks: seq<Key>, x: Key) {
    x.Percent? && forall k :: k in ks ==> k.Percent? && k.n <= x.n
  }

  lemma AscendingAppend(ks: seq<Key>, x: Key, next: Key)
    requires Ascending(ks) && UpTo(ks, x) && x.n < 100 && next.Percent? && x.n <= next.n
    ensures Ascending(if x in ks then ks else ks + [x])
    ensures UpTo(if x in ks then ks else ks + [x], next)
    ensures UpTo(ks, next)
  {}

  lemma FirstSeenSnoc(adds: seq<Add>, a: Add)
    ensures FirstSeen(adds + [a]) == if a.key in FirstSeen(adds) then FirstSeen(adds) else FirstSeen(adds) + [a.key]
    ensures FirstSeen(adds + []) == FirstSeen(adds)
  {
    assert (adds + [a])[..|adds|] == adds;
    assert adds + [] == adds;
  }

  lemma NoneSeen()
    ensures FirstSeen([]) == [] && Ascending([])
  {}

  lemma UpToNone(x: Key)
    requires x.Percent?
    ensures UpTo([], x)
  {}

  lemma {:induction false} PercentsAscend(input: seq<Feed>, k: nat)
    requires k <= |input|
    ensures Ascending(FirstSeen(PercentAdds(input, k)))
    ensures |input| > 0 ==> UpTo(FirstSeen(PercentAdds(input, k)), PercentOf(if k < |input| then k else k - 1, |input|))
    decreases k
  {
    hide Anomaly, After, Loses, HasError, IsScrambled, PercentOf, Ascending, UpTo, FirstSeen;
    if k > 0 {
      var n, x := |input|, PercentOf(k - 1, |input|);
      var next := PercentOf(if k < n then k else k - 1, n);
      PercentsAscend(input, k - 1);
      PercentBounds(k - 1, if k < n then k else k - 1, n);
      AscendingAppend(FirstSeen(PercentAdds(input, k - 1)), x, next);
      FirstSeenSnoc(PercentAdds(input, k - 1), AddAt(input, k - 1, x));
    } else {
      NoneSeen();
      if |input| > 0 {
        PercentBounds(0, 0, |input|);
        UpToNone(PercentOf(0, |input|));
      }
    }
  }

  /** Ascending percentages below 100 are at most 100 many. */
  lemma {:induction false} AscendingShort(ks: seq<Key>)
    requires Ascending(ks)
    ensures ks != [] ==> |ks| <= ks[|ks| - 1].n + 1
    decreases |ks|
  {
    if |ks| > 1 {
      AscendingShort(ks[..|ks| - 1]);
    }
  }

  /** The anomalies of the first `k` packets that lie in the `q`-th percentile of the file. */
  function PercentileSum(input: seq<Feed>, k: nat, q: nat, kind: Kind): nat
    requires k <= |input|
  {
    if k == 0 then 0
    else
      PercentileSum(input, k - 1, q, kind)
      + if Anomaly(input, k - 1) && InPercentile(k - 1, |input|, q) then Amount(AddAt(input, k - 1, Unknown), kind) else 0
  }

  lemma OfKeySnoc(adds: seq<Add>, a: Add, key: Key, kind: Kind)
    ensures OfKey(adds + [a], key, kind) == OfKey(adds, key, kind) + if a.key == key then Amount(a, kind) else 0
    ensures OfKey(adds + [], key, kind) == OfKey(adds, key, kind)
  {
    assert (adds + [a])[..|adds|] == adds;
    assert adds + [] == adds;
  }

  lemma NoneOfKey(key: Key, kind: Kind)
    ensures OfKey([], key, kind) == 0
  {}

  lemma PercentKey(input: seq<Feed>, i: nat, q: nat, kind: Kind)
    requires i < |input|
    ensures var a := AddAt(input, i, PercentOf(i, |input|));
      && (a.key == Percent(q) <==> InPercentile(i, |input|, q))
      && Amount(a, kind) == Amount(AddAt(input, i, Unknown), kind)
  {
    hide After, Pid, Loses, HasError, IsScrambled, PercentOf;
    PercentIs(i, |input|, q);
  }

  lemma {:induction false} OfPercentile(input: seq<Feed>, k: nat, q: nat, kind: Kind)
    requires k <= |input|
    ensures OfKey(PercentAdds(input, k), Percent(q), kind) == PercentileSum(input, k, q, kind)
    decreases k
  {
    hide Anomaly, After, AddOf, PercentOf, InPercentile, OfKey, Amount, Pid;
    if k > 0 {
      var a := AddAt(input, k - 1, PercentOf(k - 1, |input|));
      OfPercentile(input, k - 1, q, kind);
      OfKeySnoc(PercentAdds(input, k - 1), a, Percent(q), kind);
      PercentKey(input, k - 1, q, kind);
    } else {
      NoneOfKey(Percent(q), kind);
    }
  }

  /** The percent list's keys are strictly ascending percentages from 0 to 99, and each counter is exact up to its cap. */
  lemma PercentList(input: seq<Feed>, k: nat, i: nat, kind: Kind)
    requires k <= |input| && i < |After(input, k).losses.byPercent|
    ensures var es := After(input, k).losses.byPercent;
      && (forall m :: 0 <= m < |es| ==> es[m].key.Percent? && es[m].key.n < 100)
      && (forall m, n :: 0 <= m < n < |es| ==> es[m].key.Percent? && es[n].key.Percent? && es[m].key.n < es[n].key.n)
      && Count(es[i], kind) == Min(99999999, PercentileSum(input, k, es[i].key.n, kind))
  {
    hide After, PercentAdds, ListOf, FirstSeen, OfKey, Count, PercentileSum;
    var adds := PercentAdds(input, k);
    ListsAreAdds(input, k);
    AddsAreUnit(input, k);
    PercentsAscend(input, k);
    AscendingShort(FirstSeen(adds));
    ListIsGroupBy(adds);
    EveryKeyIsExact(adds, i, kind);
    assert FirstSeen(adds)[i].Percent? by { hide UnitAdds; }
    OfPercentile(input, k, FirstSeen(adds)[i].n, kind);
  }

  /** The time list is the capped group-by of the anomalies by the last time before each. */
  lemma TimeList(input: seq<Feed>, k: nat)
    requires k <= |input|
    ensures var es, adds := After(input, k).losses.byTot, TotAdds(input, k); var ks := FirstSeen(adds);
      && |es| == Min(|ks|, 100001)
      && (forall i :: 0 <= i < |es| ==> es[i].key == ks[i])
      && forall i, kind :: 0 <= i < |es| ==> Count(es[i], kind) == Min(99999999, Landed(adds, ks, i, kind))
  {
    hide After, TotAdds, ListOf, FirstSeen, Landed, Count;
    ListsAreAdds(input, k);
    AddsAreUnit(input, k);
    ListIsGroupBy(TotAdds(input, k));
  }

  // ---------------------------------------------------------------- the views agree

  function Tally(c: DropCount, kind: Kind): nat {
    match kind
    case Drop => c.drop
    case Error => c.error
    case Scrambling => c.scrambling
  }

  function Tallies(counts: Counters, kind: Kind): seq<int> {
    seq(PID_COUNT, i requires 0 <= i < PID_COUNT => Tally(counts[i], kind))
  }

  lemma CountTally(c: DropCount, p: Packet, kind: Kind, key: Key)
    ensures Tally(LossBound.Count(c, p), kind) == Tally(c, kind) + Amount(AddOf(key, c, p), kind)
    ensures !Anomalous(c, p) ==> Amount(AddOf(key, c, p), kind) == 0
  {
    hide HasPayload, SameCounter, Discontinuity;
  }

  lemma AmountIgnoresKey(a: Key, b: Key, c: DropCount, p: Packet, kind: Kind)
    ensures Amount(AddOf(a, c, p), kind) == Amount(AddOf(b, c, p), kind)
  {}

  lemma TalliesStep(counts: Counters, p: Packet, kind: Kind, key: Key)
    ensures Sum(Tallies(CountAt(counts, p), kind)) == Sum(Tallies(counts, kind)) + Amount(AddOf(key, counts[Pid(p)], p), kind)
    ensures !Anomalous(counts[Pid(p)], p) ==> Amount(AddOf(key, counts[Pid(p)], p), kind) == 0
  {
    hide AddOf, Pid, Anomalous, Sum, Amount, LossBound.Count, Tally;
    var pid := Pid(p);
    var c := counts[pid];
    var xs, ys := Tallies(counts, kind), Tallies(CountAt(counts, p), kind);
    CountTally(c, p, kind, key);
    assert ys == xs[pid := Tally(LossBound.Count(c, p), kind)];
    SumUpdate(xs, pid, Tally(LossBound.Count(c, p), kind));
  }

  lemma AmountsSnoc(adds: seq<Add>, a: Add, kind: Kind)
    ensures AmountsOf(adds + [a], kind) == AmountsOf(adds, kind) + Amount(a, kind)
    ensures AmountsOf(adds + [], kind) == AmountsOf(adds, kind)
  {
    assert (adds + [a])[..|adds|] == adds;
    assert adds + [] == adds;
  }

  lemma NoAmounts(kind: Kind)
    ensures AmountsOf([], kind) == 0
  {}

  lemma StartTallies(kind: Kind)
    ensures Sum(Tallies(Start().counts, kind)) == 0
  {
    hide Sum, Idle, Wanted;
    SumZero(Tallies(Start().counts, kind));
  }

  /** Both lists receive together what the PIDs are charged. */
  lemma {:induction false} SameAmounts(input: seq<Feed>, k: nat, kind: Kind)
    requires k <= |input|
    ensures AmountsOf(TotAdds(input, k), kind) == Sum(Tallies(After(input, k).counts, kind))
    ensures AmountsOf(PercentAdds(input, k), kind) == Sum(Tallies(After(input, k).counts, kind))
    decreases k
  {
    hide StepState, AddOf, Pid, Bad, Anomalous, KeyAfter, Times, Sum, Amount, AmountsOf, CountAt, PercentOf, Tallies;
    if k == 0 {
      StartTallies(kind);
      NoAmounts(kind);
    } else {
      var st, f := After(input, k - 1), input[k - 1];
      var key, percent := KeyAfter(Times(input, k - 1)), PercentOf(k - 1, |input|);
      SameAmounts(input, k - 1, kind);
      StepCounts(st, f, k - 1, |input|);
      TalliesStep(st.counts, f.packet, kind, key);
      AmountIgnoresKey(key, percent, st.counts[Pid(f.packet)], f.packet, kind);
      AmountsSnoc(TotAdds(input, k - 1), AddAt(input, k - 1, key), kind);
      AmountsSnoc(PercentAdds(input, k - 1), AddAt(input, k - 1, percent), kind);
    }
  }

  /**
   Conservation: in every state the losses over all PIDs are those in either list plus what
   the list's full counters turned away.
   */
  lemma {:induction false} ViewsConserve(input: seq<Feed>, k: nat, kind: Kind)
    requires k <= |input|
    ensures var st := After(input, k); var total := Sum(Tallies(st.counts, kind));
      && total == Total(st.losses.byTot, kind) + SuppressedOf(TotAdds(input, k), kind)
      && total == Total(st.losses.byPercent, kind) + SuppressedOf(PercentAdds(input, k), kind)
  {
    hide After, TotAdds, PercentAdds, ListOf, Sum, Total, SuppressedOf, AmountsOf;
    SameAmounts(input, k, kind);
    ListsAreAdds(input, k);
    Conservation(TotAdds(input, k), kind);
    Conservation(PercentAdds(input, k), kind);
  }

  /**
   The three views agree: in every state whose list counters are below 99999999 the losses
   over all PIDs, over the percent list and over the time list are the same, even when the
   time list has outgrown its cap.
   */
  lemma ThreeViewsAgree(input: seq<Feed>, k: nat, kind: Kind)
    requires k <= |input|
    requires BelowCap(After(input, k).losses.byTot, kind) && BelowCap(After(input, k).losses.byPercent, kind)
    ensures var st := After(input, k);
      Sum(Tallies(st.counts, kind)) == Total(st.losses.byTot, kind) == Total(st.losses.byPercent, kind)
  {
    hide After, TotAdds, PercentAdds, ListOf, Sum, Total, SuppressedOf, BelowCap;
    ViewsConserve(input, k, kind);
    ListsAreAdds(input, k);
    NothingSuppressed(TotAdds(input, k), kind);
    NothingSuppressed(PercentAdds(input, k), kind);
  }
}
