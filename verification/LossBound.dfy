/**
 What whole runs of the continuity monitor say about losses: deleting packets from a stream
 can never be over-reported, and an isolated gap is reported exactly.
 */
module LossBound {
  import opened Bytes
  import opened Header
  import opened Continuity

  /** The counter structure after a packet of the main loop: counted there, then monitored. */
  function Count(c: DropCount, p: Packet): DropCount {
    Step(c.(total := c.total + 1), p)
  }

  /** One PID's structure after its packets so far. */
  function Run(ps: seq<Packet>): DropCount {
    if ps == [] then Fresh() else Count(Run(ps[..|ps| - 1]), ps[|ps| - 1])
  }

  lemma {:induction false} RunInvariant(ps: seq<Packet>)
    ensures Run(ps).repeat <= 1
    ensures Run(ps).use == if ps == [] then 0 else 1
    ensures ps != [] ==> Run(ps).before == ps[|ps| - 1]
    ensures Run(ps).total == 2 * |ps|
    decreases |ps|
  {
    hide Judged, Discontinuity, SameCounter, HasPayload;
    if ps != [] {
      RunInvariant(ps[..|ps| - 1]);
    }
  }

  // ---------------------------------------------------------------- deleting packets

  /** The packets whose flag is set. */
  function Survivors(ps: seq<Packet>, keep: seq<bool>): seq<Packet>
    requires |ps| == |keep|
  {
    if ps == [] then []
    else
      var n := |ps| - 1;
      Survivors(ps[..n], keep[..n]) + if keep[n] then [ps[n]] else []
  }

  /** The number of maximal runs of deleted packets. */
  function Gaps(keep: seq<bool>): nat {
    if keep == [] then 0
    else
      var n := |keep| - 1;
      Gaps(keep[..n]) + if !keep[n] && (n == 0 || keep[n - 1]) then 1 else 0
  }

  function Deleted(keep: seq<bool>): nat {
    if keep == [] then 0
    else Deleted(keep[..|keep| - 1]) + if keep[|keep| - 1] then 0 else 1
  }

  lemma {:induction false} GapsAtMostDeleted(keep: seq<bool>)
    ensures Gaps(keep) <= Deleted(keep)
    decreases |keep|
  {
    if keep != [] {
      GapsAtMostDeleted(keep[..|keep| - 1]);
    }
  }

  /** A gap that went unnoticed can leave the survivor one repeat ahead, which a later duplicate turns into a loss. */
  function Deferred(full: DropCount, thinned: DropCount): nat {
    if thinned.repeat > full.repeat then thinned.repeat - full.repeat else 0
  }

  /** The lockstep invariant: `full` has seen every packet, `thinned` the survivors. */
  ghost predicate Lockstep(full: DropCount, thinned: DropCount, gaps: nat, inGap: bool) {
    && full.repeat <= 1 && thinned.repeat <= 1
    && if inGap then thinned.drop + 1 <= full.drop + gaps
       else
         && full.use == thinned.use
         && (full.use != 0 ==> full.before == thinned.before)
         && thinned.drop + Deferred(full, thinned) <= full.drop + gaps
  }

  /** A packet that both runs see, directly after one that both saw. */
  lemma LockstepKeep(full: DropCount, thinned: DropCount, gaps: nat, p: Packet)
    requires Lockstep(full, thinned, gaps, false)
    ensures Lockstep(Count(full, p), Count(thinned, p), gaps, false)
  {
    hide Discontinuity, HeaderCounter, HasPayload;
  }

  /** The first packet that both runs see after a gap. */
  lemma LockstepResume(full: DropCount, thinned: DropCount, gaps: nat, p: Packet)
    requires Lockstep(full, thinned, gaps, true)
    ensures Lockstep(Count(full, p), Count(thinned, p), gaps, false)
  {
    hide Judged, SameCounter, HasPayload;
  }

  /** A packet that only the full run sees. */
  lemma LockstepDelete(full: DropCount, thinned: DropCount, gaps: nat, inGap: bool, p: Packet)
    requires Lockstep(full, thinned, gaps, inGap)
    ensures Lockstep(Count(full, p), thinned, if inGap then gaps else gaps + 1, true)
  {
    hide Judged, SameCounter, HasPayload;
  }

  lemma LockstepStart()
    ensures Lockstep(Fresh(), Fresh(), 0, false)
  {}

  lemma LockstepStep(full: DropCount, thinned: DropCount, gaps: nat, inGap: bool, p: Packet, kept: bool)
    requires Lockstep(full, thinned, gaps, inGap)
    ensures Lockstep(Count(full, p), if kept then Count(thinned, p) else thinned,
                     gaps + if !kept && !inGap then 1 else 0, !kept)
  {
    hide Lockstep, Count;
    if !kept {
      LockstepDelete(full, thinned, gaps, inGap, p);
    } else if inGap {
      LockstepResume(full, thinned, gaps, p);
    } else {
      LockstepKeep(full, thinned, gaps, p);
    }
  }

  lemma RunSnoc(ps: seq<Packet>, p: Packet)
    ensures Run(ps + [p]) == Count(Run(ps), p)
  {
    assert (ps + [p])[..|ps|] == ps;
  }

  /** The run over the survivors advances exactly on the packets that survive. */
  lemma {:induction false} SurvivorsRun(ps: seq<Packet>, keep: seq<bool>)
    requires |ps| == |keep| > 0
    ensures var n := |ps| - 1; var before := Run(Survivors(ps[..n], keep[..n]));
      Run(Survivors(ps, keep)) == if keep[n] then Count(before, ps[n]) else before
  {
    hide Count;
    var n := |ps| - 1;
    if keep[n] {
      RunSnoc(Survivors(ps[..n], keep[..n]), ps[n]);
    } else {
      assert Survivors(ps, keep) == Survivors(ps[..n], keep[..n]);
    }
  }

  lemma {:induction false} LockstepRun(ps: seq<Packet>, keep: seq<bool>)
    requires |ps| == |keep|
    ensures Lockstep(Run(ps), Run(Survivors(ps, keep)), Gaps(keep), keep != [] && !keep[|keep| - 1])
    decreases |ps|
  {
    hide Lockstep, Count, Fresh;
    if ps == [] {
      LockstepStart();
    } else {
      var n := |ps| - 1;
      LockstepRun(ps[..n], keep[..n]);
      SurvivorsRun(ps, keep);
      LockstepStep(Run(ps[..n]), Run(Survivors(ps[..n], keep[..n])), Gaps(keep[..n]), n > 0 && !keep[n - 1], ps[n], keep[n]);
    }
  }

  lemma LockstepBound(full: DropCount, thinned: DropCount, gaps: nat, inGap: bool)
    requires Lockstep(full, thinned, gaps, inGap)
    ensures thinned.drop <= full.drop + gaps
  {}

  /**
   Losses are never overstated: for every stream of one PID and every choice of packets to
   delete from it, the monitor reports at most one more loss for each maximal run of deleted
   packets.  In particular a stream that reports none yields at most that many.
   */
  lemma {:induction false} DropsNeverOverstateLoss(ps: seq<Packet>, keep: seq<bool>)
    requires |ps| == |keep|
    ensures Run(Survivors(ps, keep)).drop <= Run(ps).drop + Gaps(keep)
    ensures Gaps(keep) <= Deleted(keep)
  {
    hide Lockstep;
    LockstepRun(ps, keep);
    LockstepBound(Run(ps), Run(Survivors(ps, keep)), Gaps(keep), keep != [] && !keep[|keep| - 1]);
    GapsAtMostDeleted(keep);
  }

  // ---------------------------------------------------------------- the other direction

  /** What deleting packets can hide: each deleted packet may itself be a loss, and so may the one after a stretch. */
  function Hidden(keep: seq<bool>): nat {
    Deleted(keep) + Gaps(keep)
  }

  /** The lockstep with the runs exchanged: only the full run sees a packet. */
  lemma LockstepExtra(full: DropCount, thinned: DropCount, credit: nat, inGap: bool, p: Packet)
    requires Lockstep(thinned, full, credit, inGap)
    ensures Lockstep(thinned, Count(full, p), if inGap then credit + 1 else credit + 2, true)
  {
    hide Judged, SameCounter, HasPayload;
  }

  lemma ExchangedStep(full: DropCount, thinned: DropCount, credit: nat, inGap: bool, p: Packet, kept: bool)
    requires Lockstep(thinned, full, credit, inGap)
    ensures Lockstep(if kept then Count(thinned, p) else thinned, Count(full, p),
                     credit + if kept then 0 else if inGap then 1 else 2, !kept)
  {
    hide Lockstep, Count;
    if !kept {
      LockstepExtra(full, thinned, credit, inGap, p);
    } else if inGap {
      LockstepResume(thinned, full, credit, p);
    } else {
      LockstepKeep(thinned, full, credit, p);
    }
  }

  lemma {:induction false} ExchangedRun(ps: seq<Packet>, keep: seq<bool>)
    requires |ps| == |keep|
    ensures Lockstep(Run(Survivors(ps, keep)), Run(ps), Hidden(keep), keep != [] && !keep[|keep| - 1])
    decreases |ps|
  {
    hide Lockstep, Count, Fresh;
    if ps == [] {
      LockstepStart();
    } else {
      var n := |ps| - 1;
      ExchangedRun(ps[..n], keep[..n]);
      SurvivorsRun(ps, keep);
      ExchangedStep(Run(ps[..n]), Run(Survivors(ps[..n], keep[..n])), Hidden(keep[..n]), n > 0 && !keep[n - 1], ps[n], keep[n]);
    }
  }

  /** Deleting packets hides at most one loss for each packet and one for each maximal run of them. */
  lemma {:induction false} DeletionHidesAtMost(ps: seq<Packet>, keep: seq<bool>)
    requires |ps| == |keep|
    ensures Run(ps).drop <= Run(Survivors(ps, keep)).drop + Deleted(keep) + Gaps(keep)
  {
    hide Lockstep;
    ExchangedRun(ps, keep);
    LockstepBound(Run(Survivors(ps, keep)), Run(ps), Hidden(keep), keep != [] && !keep[|keep| - 1]);
  }

  // ---------------------------------------------------------------- one gap in a regular stream

  /** Payload packets of one real PID whose counters rise by one modulo 16, with no discontinuity announced. */
  predicate Regular(ps: seq<Packet>, first: nat) {
    forall i :: 0 <= i < |ps| ==>
      HasPayload(ps[i]) && Pid(ps[i]) != NULL_PID && !Discontinuity(ps[i]) && HeaderCounter(ps[i]) == (first + i) % 16
  }

  lemma NextCounter(x: nat)
    ensures (x % 16 + 1) % 16 == (x + 1) % 16
    ensures (x + 1) % 16 != x % 16
  {}

  lemma {:induction false} RegularIsClean(ps: seq<Packet>, first: nat)
    requires Regular(ps, first)
    ensures Run(ps).drop == 0 && Run(ps).repeat == 0
    decreases |ps|
  {
    hide HasPayload, Pid, Discontinuity, HeaderCounter;
    if ps != [] {
      var n := |ps| - 1;
      RegularIsClean(ps[..n], first);
      RunInvariant(ps[..n]);
      if n > 0 {
        NextCounter(first + n - 1);
      }
    }
  }

  /** Is a gap of `k` packets between `last` and `next` reported? */
  predicate Reported(k: nat, last: Packet, next: Packet) {
    k % 16 != 0 && !(k % 16 == 15 && last == next)
  }

  lemma CounterAfterGap(x: nat, k: nat)
    ensures (x + 1 + k) % 16 == (x % 16 + 1) % 16 <==> k % 16 == 0
    ensures (x + 1 + k) % 16 == x % 16 <==> k % 16 == 15
  {}

  /** The first survivor after the gap is the one that reports it. */
  lemma FirstSurvivor(ps: seq<Packet>, first: nat, i: nat, k: nat)
    requires Regular(ps, first) && 1 <= i && 1 <= k && i + k < |ps|
    ensures var c := Run(ps[..i] + [ps[i + k]]);
      c.drop == Flag(Reported(k, ps[i - 1], ps[i + k])) && c.repeat <= 1 && c.before == ps[i + k] && c.use == 1
  {
    hide HasPayload, Pid, Discontinuity, HeaderCounter;
    RegularIsClean(ps[..i], first);
    RunInvariant(ps[..i]);
    RunSnoc(ps[..i], ps[i + k]);
    CounterAfterGap(first + i - 1, k);
  }

  /** A payload packet with the next counter is never a loss. */
  lemma NextIsClean(c: DropCount, p: Packet)
    requires c.use == 1 && HasPayload(p) && HeaderCounter(p) == (HeaderCounter(c.before) + 1) % 16
    ensures var d := Count(c, p); d.drop == c.drop && d.repeat <= c.repeat && d.before == p && d.use == 1
  {
    hide HasPayload, Pid, Discontinuity, HeaderCounter;
  }

  /** Nothing after it adds a loss. */
  lemma {:induction false} LaterSurvivors(ps: seq<Packet>, first: nat, i: nat, k: nat, m: nat)
    requires Regular(ps, first) && 1 <= i && 1 <= k && i + k < |ps| && 1 <= m <= |ps| - i - k
    ensures var c := Run(ps[..i] + ps[i + k..i + k + m]);
      c.drop == Flag(Reported(k, ps[i - 1], ps[i + k])) && c.repeat <= 1 && c.before == ps[i + k + m - 1] && c.use == 1
    decreases m
  {
    hide HasPayload, Pid, Discontinuity, HeaderCounter, Reported, Count, Run;
    if m == 1 {
      assert ps[i + k..i + k + 1] == [ps[i + k]];
      FirstSurvivor(ps, first, i, k);
    } else {
      LaterSurvivors(ps, first, i, k, m - 1);
      var shorter, p := ps[..i] + ps[i + k..i + k + m - 1], ps[i + k + m - 1];
      assert ps[..i] + ps[i + k..i + k + m] == shorter + [p];
      RunSnoc(shorter, p);
      assert HeaderCounter(p) == (HeaderCounter(ps[i + k + m - 2]) + 1) % 16 by {
        NextCounter(first + i + k + m - 2);
      }
      NextIsClean(Run(shorter), p);
    }
  }

  /**
   Exact gap detection: deleting k consecutive packets from the middle of a regular stream is
   reported exactly once, by the next survivor, if k is no multiple of 16, and not at all if it
   is.  The one exception is a gap of 15 more than a multiple of 16 between identical packets,
   which passes as a repeat.
   */
  lemma {:induction false} GapDetection(ps: seq<Packet>, first: nat, i: nat, k: nat)
    requires Regular(ps, first) && 1 <= i && 1 <= k && i + k < |ps|
    ensures Run(ps[..i]).drop == 0
    ensures Run(ps[..i] + [ps[i + k]]).drop == Flag(Reported(k, ps[i - 1], ps[i + k]))
    ensures Run(ps[..i] + ps[i + k..]).drop == Flag(Reported(k, ps[i - 1], ps[i + k]))
  {
    hide Reported, Run, HasPayload, Pid, Discontinuity, HeaderCounter;
    RegularIsClean(ps[..i], first);
    FirstSurvivor(ps, first, i, k);
    LaterSurvivors(ps, first, i, k, |ps| - i - k);
    assert ps[i + k..] == ps[i + k..i + k + (|ps| - i - k)];
  }
}
