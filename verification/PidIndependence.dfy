/**
 The array of 8192 counters behaves as 8192 separate monitors, one per PID.
 */
module PidIndependence {
  import opened Bytes
  import opened Header
  import opened Continuity
  import opened LossBound
  import opened Sums

  type Counters = s: seq<DropCount> | |s| == PID_COUNT
    witness seq(PID_COUNT, _ => Fresh())

  /** The array after one packet. */
  function CountAt(counts: Counters, p: Packet): Counters {
    counts[Pid(p) := Count(counts[Pid(p)], p)]
  }

  /** The array after a stream of interleaved PIDs. */
  function RunAll(ps: seq<Packet>): Counters {
    if ps == [] then seq(PID_COUNT, _ => Fresh()) else CountAt(RunAll(ps[..|ps| - 1]), ps[|ps| - 1])
  }

  function OfPid(ps: seq<Packet>, pid: nat): seq<Packet> {
    if ps == [] then []
    else OfPid(ps[..|ps| - 1], pid) + if Pid(ps[|ps| - 1]) == pid then [ps[|ps| - 1]] else []
  }

  /** Whatever the interleaving, a PID's entry depends on that PID's packets alone. */
  lemma {:induction false} Independence(ps: seq<Packet>, pid: nat)
    requires pid < PID_COUNT
    ensures RunAll(ps)[pid] == Run(OfPid(ps, pid))
    decreases |ps|
  {
    hide Count, Pid, Fresh;
    if ps != [] {
      var n := |ps| - 1;
      Independence(ps[..n], pid);
      if Pid(ps[n]) == pid {
        RunSnoc(OfPid(ps[..n], pid), ps[n]);
      } else {
        assert OfPid(ps, pid) == OfPid(ps[..n], pid);
      }
    }
  }

  lemma {:induction false} OfPidMembers(ps: seq<Packet>, pid: nat)
    ensures forall p :: p in OfPid(ps, pid) ==> p in ps && Pid(p) == pid
    decreases |ps|
  {
    hide Pid;
    if ps != [] {
      OfPidMembers(ps[..|ps| - 1], pid);
    }
  }

  /**
   In every reachable array the repeat counter is at most 1, a PID is marked used exactly when
   it has been seen, and the packet stored for a used PID is one of its own, sync byte included.
   */
  lemma ReachableEntry(ps: seq<Packet>, pid: nat)
    requires pid < PID_COUNT
    requires forall p :: p in ps ==> Synced(p)
    ensures var c := RunAll(ps)[pid];
      && c.repeat <= 1
      && c.use == (if OfPid(ps, pid) == [] then 0 else 1)
      && (c.use == 1 ==> Synced(c.before) && Pid(c.before) == pid)
  {
    hide Run, Pid, RunAll;
    var own := OfPid(ps, pid);
    Independence(ps, pid);
    RunInvariant(own);
    OfPidMembers(ps, pid);
    if own != [] {
      assert own[|own| - 1] in own;
    }
  }

  // ---------------------------------------------------------------- deleting packets from a whole stream

  function Drops(counts: Counters): seq<int> {
    seq(PID_COUNT, i requires 0 <= i < PID_COUNT => counts[i].drop)
  }

  /** The flags of one PID's packets. */
  function KeepOf(ps: seq<Packet>, keep: seq<bool>, pid: nat): (k: seq<bool>)
    requires |ps| == |keep|
    ensures |k| == |OfPid(ps, pid)|
  {
    if ps == [] then []
    else
      var n := |ps| - 1;
      KeepOf(ps[..n], keep[..n], pid) + if Pid(ps[n]) == pid then [keep[n]] else []
  }

  lemma SurvivorsSnoc(ps: seq<Packet>, keep: seq<bool>, p: Packet, k: bool)
    requires |ps| == |keep|
    ensures Survivors(ps + [p], keep + [k]) == Survivors(ps, keep) + if k then [p] else []
  {
    assert (ps + [p])[..|ps|] == ps && (keep + [k])[..|keep|] == keep;
  }

  lemma OfPidSnoc(ps: seq<Packet>, p: Packet, pid: nat)
    ensures OfPid(ps + [p], pid) == OfPid(ps, pid) + if Pid(p) == pid then [p] else []
  {
    assert (ps + [p])[..|ps|] == ps;
  }

  /** Deleting packets and selecting a PID commute. */
  lemma {:induction false} SurvivorsOfPid(ps: seq<Packet>, keep: seq<bool>, pid: nat)
    requires |ps| == |keep|
    ensures OfPid(Survivors(ps, keep), pid) == Survivors(OfPid(ps, pid), KeepOf(ps, keep, pid))
    decreases |ps|
  {
    hide Pid;
    if ps != [] {
      var n := |ps| - 1;
      SurvivorsOfPid(ps[..n], keep[..n], pid);
      if keep[n] {
        OfPidSnoc(Survivors(ps[..n], keep[..n]), ps[n], pid);
      } else {
        assert Survivors(ps, keep) == Survivors(ps[..n], keep[..n]);
      }
      if Pid(ps[n]) == pid {
        SurvivorsSnoc(OfPid(ps[..n], pid), KeepOf(ps[..n], keep[..n], pid), ps[n], keep[n]);
      } else {
        assert OfPid(ps, pid) == OfPid(ps[..n], pid);
        assert KeepOf(ps, keep, pid) == KeepOf(ps[..n], keep[..n], pid);
        assert OfPid(Survivors(ps, keep), pid) == OfPid(Survivors(ps[..n], keep[..n]), pid);
      }
    }
  }

  function DeletedOf(ps: seq<Packet>, keep: seq<bool>): (d: seq<int>)
    requires |ps| == |keep|
    ensures |d| == PID_COUNT
  {
    seq(PID_COUNT, i requires 0 <= i < PID_COUNT => Deleted(KeepOf(ps, keep, i)))
  }

  /** Every deleted packet belongs to one PID. */
  lemma {:induction false} DeletedByPid(ps: seq<Packet>, keep: seq<bool>)
    requires |ps| == |keep|
    ensures Sum(DeletedOf(ps, keep)) == Deleted(keep)
    decreases |ps|
  {
    hide Pid, Sum;
    if ps == [] {
      SumZero(DeletedOf(ps, keep));
    } else {
      var n := |ps| - 1;
      var before, after, pid := DeletedOf(ps[..n], keep[..n]), DeletedOf(ps, keep), Pid(ps[n]);
      DeletedByPid(ps[..n], keep[..n]);
      var own := KeepOf(ps[..n], keep[..n], pid);
      assert KeepOf(ps, keep, pid) == own + [keep[n]];
      assert (own + [keep[n]])[..|own|] == own;
      assert after == before[pid := before[pid] + if keep[n] then 0 else 1] by {
        forall i | 0 <= i < PID_COUNT && i != pid
          ensures after[i] == before[i]
        {
          assert KeepOf(ps, keep, i) == KeepOf(ps[..n], keep[..n], i);
        }
      }
      SumUpdate(before, pid, before[pid] + if keep[n] then 0 else 1);
    }
  }

  /** For each PID the number of maximal runs of its packets that were deleted. */
  function Stretches(ps: seq<Packet>, keep: seq<bool>): (g: seq<int>)
    requires |ps| == |keep|
    ensures |g| == PID_COUNT
  {
    seq(PID_COUNT, i requires 0 <= i < PID_COUNT => Gaps(KeepOf(ps, keep, i)))
  }

  lemma {:induction false} StretchesAtMostDeleted(ps: seq<Packet>, keep: seq<bool>)
    requires |ps| == |keep|
    ensures Sum(Stretches(ps, keep)) <= Deleted(keep)
  {
    hide Sum, KeepOf, Gaps, Deleted;
    forall i | 0 <= i < PID_COUNT
      ensures Stretches(ps, keep)[i] <= DeletedOf(ps, keep)[i]
    {
      GapsAtMostDeleted(KeepOf(ps, keep, i));
    }
    SumMonotone(Stretches(ps, keep), DeletedOf(ps, keep));
    DeletedByPid(ps, keep);
  }

  /** One PID's losses in the full stream and in what is left of it. */
  lemma {:induction false} PidBounds(ps: seq<Packet>, keep: seq<bool>, pid: nat)
    requires |ps| == |keep| && pid < PID_COUNT
    ensures var full, thinned := RunAll(ps)[pid].drop, RunAll(Survivors(ps, keep))[pid].drop;
      && thinned <= full + Stretches(ps, keep)[pid]
      && full <= thinned + DeletedOf(ps, keep)[pid] + Stretches(ps, keep)[pid]
  {
    hide RunAll, Run, Survivors, OfPid, KeepOf, Gaps, Deleted;
    Independence(ps, pid);
    Independence(Survivors(ps, keep), pid);
    SurvivorsOfPid(ps, keep, pid);
    DropsNeverOverstateLoss(OfPid(ps, pid), KeepOf(ps, keep, pid));
    DeletionHidesAtMost(OfPid(ps, pid), KeepOf(ps, keep, pid));
  }

  /**
   For a whole stream of interleaved PIDs: the total over all PIDs grows by at most one for
   each maximal run of deleted packets of a PID, and shrinks by at most that and the number of
   deleted packets.
   */
  lemma {:induction false} TotalDropsNeverOverstateLoss(ps: seq<Packet>, keep: seq<bool>)
    requires |ps| == |keep|
    ensures var full, thinned := Sum(Drops(RunAll(ps))), Sum(Drops(RunAll(Survivors(ps, keep))));
      && thinned <= full + Sum(Stretches(ps, keep))
      && full <= thinned + Deleted(keep) + Sum(Stretches(ps, keep))
    ensures Sum(Stretches(ps, keep)) <= Deleted(keep)
  {
    hide RunAll, Sum, Survivors, Stretches, DeletedOf;
    var full, thinned := Drops(RunAll(ps)), Drops(RunAll(Survivors(ps, keep)));
    var stretches, deleted := Stretches(ps, keep), DeletedOf(ps, keep);
    forall i | 0 <= i < PID_COUNT
      ensures thinned[i] <= full[i] + stretches[i]
      ensures full[i] <= thinned[i] + deleted[i] + stretches[i]
    {
      PidBounds(ps, keep, i);
    }
    SumBound(thinned, full, stretches);
    var hidden := seq(PID_COUNT, i requires 0 <= i < PID_COUNT => deleted[i] + stretches[i]);
    SumPlus(deleted, stretches, hidden);
    SumBound(full, thinned, hidden);
    DeletedByPid(ps, keep);
    StretchesAtMostDeleted(ps, keep);
  }
}
