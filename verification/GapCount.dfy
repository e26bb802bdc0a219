/**
 The exact number of losses in a regular stream from which any packets have been deleted.
 */
module GapCount {
  import opened Bytes
  import opened Header
  import opened Continuity
  import opened LossBound
  import opened PidIndependence
  import opened Samples
  import opened Sums

  // ---------------------------------------------------------------- what is noticed

  /** The last packet before `n` that was kept, or -1. */
  function Previous(keep: seq<bool>, n: nat): (j: int)
    requires n <= |keep|
    ensures -1 <= j < n && (j >= 0 ==> keep[j])
    ensures forall i :: j < i < n ==> !keep[i]
  {
    if n == 0 then -1 else if keep[n - 1] then n - 1 else Previous(keep, n - 1)
  }

  /** The number of packets missing between packet `i` and the one kept before it. */
  function Missing(keep: seq<bool>, i: nat): nat
    requires i < |keep|
  {
    i - Previous(keep, i) - 1
  }

  /** Packet `i` looks like a repetition of the one kept before it. */
  predicate LooksRepeated(ps: seq<Packet>, keep: seq<bool>, i: nat)
    requires i < |ps| == |keep|
  {
    var j := Previous(keep, i);
    j >= 0 && Missing(keep, i) % 16 == 15 && ps[j] == ps[i]
  }

  /** The length of the run of such apparent repetitions that ends at packet `i`. */
  function Repetitions(ps: seq<Packet>, keep: seq<bool>, i: nat): nat
    requires i < |ps| == |keep|
  {
    if LooksRepeated(ps, keep, i) then 1 + Repetitions(ps, keep, Previous(keep, i)) else 0
  }

  /**
   Packet `i` was kept and reports the gap before it: the gap is no multiple of 16 and the
   packet does not look repeated, or it is every second one of those that do.
   */
  predicate Noticed(ps: seq<Packet>, keep: seq<bool>, i: nat)
    requires i < |ps| == |keep|
  {
    && keep[i] && Previous(keep, i) >= 0
    && if LooksRepeated(ps, keep, i) then Repetitions(ps, keep, i) % 2 == 0 else Missing(keep, i) % 16 != 0
  }

  function NoticedBelow(ps: seq<Packet>, keep: seq<bool>, n: nat): nat
    requires n <= |ps| == |keep|
  {
    if n == 0 then 0 else NoticedBelow(ps, keep, n - 1) + Flag(Noticed(ps, keep, n - 1))
  }

  // ---------------------------------------------------------------- what the monitor reports

  /** The monitor has counted what was noticed, and stores the last kept packet. */
  ghost predicate Tracks(c: DropCount, ps: seq<Packet>, keep: seq<bool>, n: nat)
    requires n <= |ps| == |keep|
  {
    var j := Previous(keep, n);
    && c.drop == NoticedBelow(ps, keep, n)
    && if j < 0 then c.use == 0 && c.repeat == 0
       else c.use == 1 && c.before == ps[j] && c.repeat == Repetitions(ps, keep, j) % 2
  }

  lemma TracksSkip(c: DropCount, ps: seq<Packet>, keep: seq<bool>, n: nat)
    requires n < |ps| == |keep| && Tracks(c, ps, keep, n) && !keep[n]
    ensures Tracks(c, ps, keep, n + 1)
  {
    hide Repetitions;
  }

  lemma TracksFirst(c: DropCount, ps: seq<Packet>, keep: seq<bool>, n: nat)
    requires n < |ps| == |keep| && Tracks(c, ps, keep, n) && keep[n] && Previous(keep, n) < 0
    ensures Tracks(Count(c, ps[n]), ps, keep, n + 1)
  {
    hide HasPayload, Pid, Discontinuity, HeaderCounter;
  }

  /** The rule for a payload packet whose counter is `k + 1` ahead of the stored one. */
  lemma JudgedGap(c: DropCount, p: Packet, x: nat, k: nat)
    requires c.use == 1 && c.repeat <= 1 && HasPayload(p) && Pid(p) != NULL_PID && !Discontinuity(p)
    requires HeaderCounter(c.before) == x % 16 && HeaderCounter(p) == (x + 1 + k) % 16
    ensures var d, repeated := Count(c, p), k % 16 == 15 && c.before == p;
      && d.use == 1 && d.before == p
      && d.drop == c.drop + Flag(if repeated then c.repeat == 1 else k % 16 != 0)
      && d.repeat == (if repeated then 1 - c.repeat else 0)
  {
    hide HasPayload, Pid, Discontinuity, HeaderCounter;
    CounterAfterGap(x, k);
    NextCounter(x);
  }

  lemma NoticedNext(ps: seq<Packet>, keep: seq<bool>, n: nat)
    requires n < |ps| == |keep| && keep[n] && Previous(keep, n) >= 0
    ensures var r := Repetitions(ps, keep, Previous(keep, n)) % 2;
      && Noticed(ps, keep, n) == (if LooksRepeated(ps, keep, n) then r == 1 else Missing(keep, n) % 16 != 0)
      && Repetitions(ps, keep, n) % 2 == if LooksRepeated(ps, keep, n) then 1 - r else 0
    ensures Previous(keep, n + 1) == n
    ensures NoticedBelow(ps, keep, n + 1) == NoticedBelow(ps, keep, n) + Flag(Noticed(ps, keep, n))
  {
    hide LooksRepeated, Missing;
  }

  lemma RegularAt(ps: seq<Packet>, first: nat, i: nat)
    requires Regular(ps, first) && i < |ps|
    ensures HasPayload(ps[i]) && Pid(ps[i]) != NULL_PID && !Discontinuity(ps[i]) && HeaderCounter(ps[i]) == (first + i) % 16
  {
    hide HasPayload, Pid, Discontinuity, HeaderCounter;
  }

  lemma TracksNext(c: DropCount, ps: seq<Packet>, first: nat, keep: seq<bool>, n: nat)
    requires n < |ps| == |keep| && Regular(ps, first)
    requires Tracks(c, ps, keep, n) && keep[n] && Previous(keep, n) >= 0
    ensures Tracks(Count(c, ps[n]), ps, keep, n + 1)
  {
    hide HasPayload, Pid, Discontinuity, HeaderCounter, Count, Regular, Noticed, NoticedBelow, Repetitions, Previous;
    var j := Previous(keep, n);
    RegularAt(ps, first, j);
    RegularAt(ps, first, n);
    NoticedNext(ps, keep, n);
    JudgedGap(c, ps[n], first + j, Missing(keep, n));
  }

  lemma PrefixSurvivors(ps: seq<Packet>, keep: seq<bool>, n: nat)
    requires n < |ps| == |keep|
    ensures var before := Run(Survivors(ps[..n], keep[..n]));
      Run(Survivors(ps[..n + 1], keep[..n + 1])) == if keep[n] then Count(before, ps[n]) else before
  {
    hide Run, Survivors, Count;
    assert ps[..n + 1][..n] == ps[..n] && keep[..n + 1][..n] == keep[..n];
    SurvivorsRun(ps[..n + 1], keep[..n + 1]);
  }

  lemma NothingTracked(ps: seq<Packet>, keep: seq<bool>)
    requires |ps| == |keep|
    ensures Tracks(Run(Survivors(ps[..0], keep[..0])), ps, keep, 0)
  {}

  lemma {:induction false} MonitorTracks(ps: seq<Packet>, first: nat, keep: seq<bool>, n: nat)
    requires n <= |ps| == |keep| && Regular(ps, first)
    ensures Tracks(Run(Survivors(ps[..n], keep[..n])), ps, keep, n)
    decreases n
  {
    hide Tracks, Run, Survivors, Regular, Count;
    if n == 0 {
      NothingTracked(ps, keep);
    } else {
      MonitorTracks(ps, first, keep, n - 1);
      PrefixSurvivors(ps, keep, n - 1);
      var c := Run(Survivors(ps[..n - 1], keep[..n - 1]));
      if !keep[n - 1] {
        TracksSkip(c, ps, keep, n - 1);
      } else if Previous(keep, n - 1) < 0 {
        TracksFirst(c, ps, keep, n - 1);
      } else {
        TracksNext(c, ps, first, keep, n - 1);
      }
    }
  }

  /**
   Exact detection: whatever packets are deleted from a regular stream, the monitor reports
   exactly the gaps that are noticed.
   */
  lemma {:induction false} GapsReported(ps: seq<Packet>, first: nat, keep: seq<bool>)
    requires |ps| == |keep| && Regular(ps, first)
    ensures Run(Survivors(ps, keep)).drop == NoticedBelow(ps, keep, |ps|)
  {
    hide Run, Survivors, Regular;
    MonitorTracks(ps, first, keep, |ps|);
    assert ps[..|ps|] == ps && keep[..|ps|] == keep;
  }

  // ---------------------------------------------------------------- streams without look-alikes

  /** Packets whose distance is a multiple of 16, and whose counters therefore agree, differ. */
  predicate NoLookalikes(ps: seq<Packet>) {
    forall i, j :: 0 <= i < j < |ps| && (j - i) % 16 == 0 ==> ps[i] != ps[j]
  }

  /** The kept packets below `n` that have a kept packet before them, at a gap that is no multiple of 16. */
  function OddGaps(keep: seq<bool>, n: nat): nat
    requires n <= |keep|
  {
    if n == 0 then 0
    else OddGaps(keep, n - 1) + Flag(keep[n - 1] && Previous(keep, n - 1) >= 0 && Missing(keep, n - 1) % 16 != 0)
  }

  lemma {:induction false} NoticedIsOdd(ps: seq<Packet>, keep: seq<bool>, n: nat)
    requires n <= |ps| == |keep| && NoLookalikes(ps)
    ensures NoticedBelow(ps, keep, n) == OddGaps(keep, n)
    decreases n
  {
    hide Repetitions;
    if n > 0 {
      NoticedIsOdd(ps, keep, n - 1);
      var j := Previous(keep, n - 1);
      if j >= 0 && Missing(keep, n - 1) % 16 == 15 {
        assert (n - 1 - j) % 16 == 0;
      }
    }
  }

  /** In such a stream the losses are the gaps whose length is no multiple of 16. */
  lemma {:induction false} OddGapsReported(ps: seq<Packet>, first: nat, keep: seq<bool>)
    requires |ps| == |keep| && Regular(ps, first) && NoLookalikes(ps)
    ensures Run(Survivors(ps, keep)).drop == OddGaps(keep, |ps|)
  {
    hide Run, Survivors, Regular, NoLookalikes;
    GapsReported(ps, first, keep);
    NoticedIsOdd(ps, keep, |ps|);
  }

  // ---------------------------------------------------------------- interleaved streams

  /** Every PID but that of the null packets has a regular stream. */
  predicate RegularStream(ps: seq<Packet>, firsts: seq<nat>) {
    |firsts| == PID_COUNT && forall pid :: 0 <= pid < PID_COUNT && pid != NULL_PID ==> Regular(OfPid(ps, pid), firsts[pid])
  }

  /** For each PID the gaps that are noticed; null packets are never judged. */
  function NoticedOf(ps: seq<Packet>, keep: seq<bool>): (g: seq<int>)
    requires |ps| == |keep|
    ensures |g| == PID_COUNT
  {
    seq(PID_COUNT, i requires 0 <= i < PID_COUNT =>
      if i == NULL_PID then 0 else NoticedBelow(OfPid(ps, i), KeepOf(ps, keep, i), |OfPid(ps, i)|))
  }

  lemma {:induction false} NullNeverLost(ps: seq<Packet>)
    requires forall p :: p in ps ==> Pid(p) == NULL_PID
    ensures Run(ps).drop == 0
    decreases |ps|
  {
    hide Pid, HasPayload, Discontinuity, HeaderCounter;
    if ps != [] {
      assert ps[|ps| - 1] in ps;
      forall p | p in ps[..|ps| - 1]
        ensures Pid(p) == NULL_PID
      {
        assert p in ps;
      }
      NullNeverLost(ps[..|ps| - 1]);
    }
  }

  lemma {:induction false} PidGapsReported(ps: seq<Packet>, firsts: seq<nat>, keep: seq<bool>, pid: nat)
    requires |ps| == |keep| && RegularStream(ps, firsts) && pid < PID_COUNT
    ensures RunAll(Survivors(ps, keep))[pid].drop == NoticedOf(ps, keep)[pid]
  {
    hide RunAll, Run, Survivors, OfPid, KeepOf, Regular, Pid, NoticedBelow;
    Independence(Survivors(ps, keep), pid);
    if pid == NULL_PID {
      OfPidMembers(Survivors(ps, keep), pid);
      NullNeverLost(OfPid(Survivors(ps, keep), pid));
    } else {
      SurvivorsOfPid(ps, keep, pid);
      GapsReported(OfPid(ps, pid), firsts[pid], KeepOf(ps, keep, pid));
    }
  }

  /** Whatever is deleted from interleaved regular streams, the total is exactly the gaps that are noticed in each. */
  lemma {:induction false} StreamGapsReported(ps: seq<Packet>, firsts: seq<nat>, keep: seq<bool>)
    requires |ps| == |keep| && RegularStream(ps, firsts)
    ensures Sum(Drops(RunAll(Survivors(ps, keep)))) == Sum(NoticedOf(ps, keep))
  {
    hide RunAll, Sum, Survivors, NoticedOf, RegularStream;
    var drops, noticed := Drops(RunAll(Survivors(ps, keep))), NoticedOf(ps, keep);
    forall i | 0 <= i < PID_COUNT
      ensures drops[i] == noticed[i]
    {
      PidGapsReported(ps, firsts, keep, i);
    }
    assert drops == noticed;
  }

  // ---------------------------------------------------------------- a gap that is not reported

  /** Packets without content whose counters rise. */
  function Steady(n: nat): (ps: seq<Packet>)
    ensures |ps| == n && forall i :: 0 <= i < n ==> ps[i] == Good(i % 16)
  {
    seq(n, i => if i >= 0 then Good(i % 16) else Good(0))
  }

  lemma NotReported(p: Packet)
    ensures !Reported(15, p, p)
  {}

  /** Fifteen packets are lost between two that look the same, and nothing is reported. */
  lemma {:induction false} SilentGap()
    ensures var ps := Steady(17); Regular(ps, 0) && ps[0] == ps[16] && Run(ps[..1] + ps[16..]).drop == 0
  {
    hide Good, Run, Reported;
    var ps := Steady(17);
    forall i | 0 <= i < 17
      ensures HasPayload(ps[i]) && Pid(ps[i]) != NULL_PID && !Discontinuity(ps[i]) && HeaderCounter(ps[i]) == (0 + i) % 16
    {
      GoodFields(i % 16);
    }
    assert Regular(ps, 0) by { hide HasPayload, Pid, Discontinuity, HeaderCounter; }
    assert Reported(15, ps[0], ps[16]) == false by { NotReported(ps[0]); }
    GapDetection(ps, 0, 1, 15);
  }
}
