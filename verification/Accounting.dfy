/**
 What holds at every point of every run of the packet loop: where each packet is counted,
 when a file is judged not to be a transport stream, and that the three views of the losses
 agree.
 */
module Accounting {
  import opened Bytes
  import opened Header
  import opened Continuity
  import opened LossBound
  import opened PidIndependence
  import opened SectionAssembly
  import opened Reassembly
  import opened DropLists
  import opened Sums
  import opened Analysis

  predicate Bad(f: Feed) {
    !Synced(f.packet)
  }

  // ---------------------------------------------------------------- the latch

  const LATCH_RUN: nat := 102

  /** The number of packets without the sync byte that end the first `k` packets. */
  function BadRun(input: seq<Feed>, k: nat): nat
    requires k <= |input|
  {
    if k == 0 || !Bad(input[k - 1]) then 0 else BadRun(input, k - 1) + 1
  }

  /** The `m` packets before `j` all lack the sync byte. */
  predicate BadStretch(input: seq<Feed>, j: nat, m: nat)
    requires j <= |input|
  {
    m <= j && forall i :: j - m <= i < j ==> Bad(input[i])
  }

  lemma {:induction false} BadRunIsStretch(input: seq<Feed>, j: nat, m: nat)
    requires j <= |input|
    ensures BadRun(input, j) >= m <==> BadStretch(input, j, m)
    decreases j
  {
    if j > 0 && m > 0 {
      BadRunIsStretch(input, j - 1, m - 1);
      if Bad(input[j - 1]) && BadStretch(input, j - 1, m - 1) {
        assert BadStretch(input, j, m);
      }
    }
  }

  lemma SyncedKeeps(st: State, f: Feed, percent: Key)
    ensures StepSynced(st, f, percent).syncError == st.syncError
    ensures StepSynced(st, f, percent).syncErrRepeat == 0
    ensures StepSynced(st, f, percent).notTs == st.notTs
    ensures StepSynced(st, f, percent).counts == CountAt(st.counts, f.packet)
    ensures StepSynced(st, f, percent).losses
         == Logged(st.losses, st.counts[Pid(f.packet)], f.packet, st.currentTot, percent)
    ensures StepSynced(st, f, percent).slots
         == st.slots[Pid(f.packet) := StepEnabled(st.slots[Pid(f.packet)], f).0]
  {
    hide Pid, CountAt, Logged, StepEnabled, CarriesTime, TimeCarried, CarriesPat, PatCarried, Gather;
    GatherChanges(Checked(st, f.packet, percent), f);
  }

  /** Before the latch the repeat counter is the length of the current bad run, and no run has been long enough. */
  lemma {:induction false} RepeatIsBadRun(input: seq<Feed>, k: nat)
    requires k <= |input|
    ensures !After(input, k).notTs ==> After(input, k).syncErrRepeat == BadRun(input, k)
    ensures After(input, k).notTs <==> exists j :: 0 <= j <= k && BadRun(input, j) >= LATCH_RUN
    decreases k
  {
    hide StepSynced;
    if k > 0 {
      RepeatIsBadRun(input, k - 1);
      SyncedKeeps(After(input, k - 1), input[k - 1], PercentOf(k - 1, |input|));
      if After(input, k - 1).notTs {
        var j :| 0 <= j <= k - 1 && BadRun(input, j) >= LATCH_RUN;
        assert 0 <= j <= k;
      } else {
        assert forall j :: 0 <= j <= k - 1 ==> BadRun(input, j) < LATCH_RUN;
        assert After(input, k).notTs <==> BadRun(input, k) >= LATCH_RUN;
      }
    }
  }

  /** The file is judged not to be a transport stream exactly when 102 consecutive packets lacked the sync byte. */
  lemma LatchIffBadStretch(input: seq<Feed>, k: nat)
    requires k <= |input|
    ensures After(input, k).notTs <==> exists j :: 0 <= j <= k && BadStretch(input, j, LATCH_RUN)
  {
    hide After, BadRun, BadStretch;
    RepeatIsBadRun(input, k);
    if After(input, k).notTs {
      var j :| 0 <= j <= k && BadRun(input, j) >= LATCH_RUN;
      BadRunIsStretch(input, j, LATCH_RUN);
    }
    if exists j :: 0 <= j <= k && BadStretch(input, j, LATCH_RUN) {
      var j :| 0 <= j <= k && BadStretch(input, j, LATCH_RUN);
      BadRunIsStretch(input, j, LATCH_RUN);
    }
  }

  /** After the latch nothing changes any more. */
  lemma {:induction false} LatchedForever(input: seq<Feed>, k: nat, m: nat)
    requires k <= m <= |input| && After(input, k).notTs
    ensures After(input, m) == After(input, k)
    decreases m
  {
    hide StepSynced;
    if k < m {
      LatchedForever(input, k, m - 1);
    }
  }

  // ---------------------------------------------------------------- every packet is accounted for

  /** Packet `i` is read before the latch and has the sync byte. */
  predicate Accepts(input: seq<Feed>, i: nat)
    requires i < |input|
  {
    !After(input, i).notTs && !Bad(input[i])
  }

  /** The packets that were counted. */
  function Accepted(input: seq<Feed>, k: nat): seq<Packet>
    requires k <= |input|
  {
    if k == 0 then [] else Accepted(input, k - 1) + if Accepts(input, k - 1) then [input[k - 1].packet] else []
  }

  /** The number of packets that were only read for the hashes, because the file had been judged. */
  function Skipped(input: seq<Feed>, k: nat): nat
    requires k <= |input|
  {
    if k == 0 then 0 else Skipped(input, k - 1) + if After(input, k - 1).notTs then 1 else 0
  }

  lemma RunAllSnoc(ps: seq<Packet>, p: Packet)
    ensures RunAll(ps + [p]) == CountAt(RunAll(ps), p)
  {
    assert (ps + [p])[..|ps|] == ps;
  }

  lemma StepCounts(st: State, f: Feed, i: nat, n: nat)
    requires i < n
    ensures StepState(st, f, i, n).counts == if !st.notTs && !Bad(f) then CountAt(st.counts, f.packet) else st.counts
  {
    hide StepSynced, CountAt;
    SyncedKeeps(st, f, PercentOf(i, n));
  }

  /** The counter array is that of the accepted packets. */
  lemma {:induction false} CountsAreRun(input: seq<Feed>, k: nat)
    requires k <= |input|
    ensures After(input, k).counts == RunAll(Accepted(input, k))
    decreases k
  {
    hide StepState, CountAt, Bad, Fresh;
    if k > 0 {
      CountsAreRun(input, k - 1);
      StepCounts(After(input, k - 1), input[k - 1], k - 1, |input|);
      if Accepts(input, k - 1) {
        RunAllSnoc(Accepted(input, k - 1), input[k - 1].packet);
      } else {
        assert Accepted(input, k) == Accepted(input, k - 1);
      }
    }
  }

  function Totals(counts: Counters): seq<int> {
    seq(PID_COUNT, i requires 0 <= i < PID_COUNT => counts[i].total)
  }

  lemma {:induction false} TotalOfRun(ps: seq<Packet>)
    ensures Sum(Totals(RunAll(ps))) == 2 * |ps|
    decreases |ps|
  {
    hide Sum, Pid, Loses, RepeatAfter;
    if ps == [] {
      SumZero(Totals(RunAll(ps)));
    } else {
      var n := |ps| - 1;
      var xs, ys, pid := Totals(RunAll(ps[..n])), Totals(RunAll(ps)), Pid(ps[n]);
      TotalOfRun(ps[..n]);
      assert ys == xs[pid := xs[pid] + 2];
      SumUpdate(xs, pid, xs[pid] + 2);
    }
  }

  lemma {:induction false} ReadCount(input: seq<Feed>, k: nat)
    requires k <= |input|
    ensures k == |Accepted(input, k)| + After(input, k).syncError + Skipped(input, k)
    decreases k
  {
    hide StepSynced;
    if k > 0 {
      ReadCount(input, k - 1);
      SyncedKeeps(After(input, k - 1), input[k - 1], PercentOf(k - 1, |input|));
    }
  }

  /**
   At every point of every run each packet that was read is counted twice in `total`, or is a
   sync error, or was skipped after the latch.
   */
  lemma {:induction false} PacketAccounting(input: seq<Feed>, k: nat)
    requires k <= |input|
    ensures 2 * k == Sum(Totals(After(input, k).counts)) + 2 * After(input, k).syncError + 2 * Skipped(input, k)
  {
    hide After, Accepted, Skipped, RunAll, Sum, Totals;
    CountsAreRun(input, k);
    TotalOfRun(Accepted(input, k));
    ReadCount(input, k);
  }

  /** Packets of a PID that were counted, by the position of that PID's packets alone. */
  lemma {:induction false} EntriesAreIndependent(input: seq<Feed>, k: nat, pid: nat)
    requires k <= |input| && pid < PID_COUNT
    ensures After(input, k).counts[pid] == Run(OfPid(Accepted(input, k), pid))
  {
    hide After, Accepted, RunAll, Run, OfPid;
    CountsAreRun(input, k);
    Independence(Accepted(input, k), pid);
  }

  lemma {:induction false} AcceptedSynced(input: seq<Feed>, k: nat)
    requires k <= |input|
    ensures forall p :: p in Accepted(input, k) ==> Synced(p)
    decreases k
  {
    hide After, Synced;
    if k > 0 {
      AcceptedSynced(input, k - 1);
    }
  }

  /** In every state of every run a used entry stores a packet of its own PID, sync byte included, and repeats are at most 1. */
  lemma StoredPackets(input: seq<Feed>, k: nat, pid: nat)
    requires k <= |input| && pid < PID_COUNT
    ensures var c := After(input, k).counts[pid];
      && c.repeat <= 1
      && (c.use == 1 <==> OfPid(Accepted(input, k), pid) != [])
      && (c.use == 1 ==> Synced(c.before) && Pid(c.before) == pid)
  {
    hide After, Accepted, RunAll, OfPid, Synced, Pid;
    CountsAreRun(input, k);
    AcceptedSynced(input, k);
    ReachableEntry(Accepted(input, k), pid);
  }

  // ---------------------------------------------------------------- the reassembly slots

  /** A PID's accepted packets, with their surroundings. */
  function Own(input: seq<Feed>, k: nat, pid: nat): seq<Feed>
    requires k <= |input|
  {
    if k == 0 then []
    else Own(input, k - 1, pid) + if Accepts(input, k - 1) && Pid(input[k - 1].packet) == pid then [input[k - 1]] else []
  }

  /** One slot's life under the loop's conditions. */
  function SlotAfter(s: Slot, fs: seq<Feed>): (s': Slot)
    requires SlotValid(s)
    ensures SlotValid(s')
    decreases |fs|
  {
    if fs == [] then s else StepEnabled(SlotAfter(s, fs[..|fs| - 1]), fs[|fs| - 1]).0
  }

  lemma SlotAfterSnoc(s: Slot, fs: seq<Feed>, f: Feed)
    requires SlotValid(s)
    ensures SlotAfter(s, fs + [f]) == StepEnabled(SlotAfter(s, fs), f).0
  {
    assert (fs + [f])[..|fs|] == fs;
  }

  lemma StepSlots(st: State, f: Feed, i: nat, n: nat)
    requires i < n
    ensures StepState(st, f, i, n).slots ==
      if !st.notTs && !Bad(f) then st.slots[Pid(f.packet) := StepEnabled(st.slots[Pid(f.packet)], f).0] else st.slots
  {
    hide StepSynced, StepEnabled, Pid, PercentOf;
    SyncedKeeps(st, f, PercentOf(i, n));
  }

  /** Whatever the interleaving, a PID's slot depends on that PID's accepted packets alone. */
  lemma {:induction false} SlotsAreIndependent(input: seq<Feed>, k: nat, pid: nat)
    requires k <= |input| && pid < PID_COUNT
    ensures After(input, k).slots[pid] == SlotAfter(Idle(Wanted(pid)), Own(input, k, pid))
    decreases k
  {
    hide StepState, StepEnabled, Bad, Pid, SlotValid;
    if k > 0 {
      SlotsAreIndependent(input, k - 1, pid);
      StepSlots(After(input, k - 1), input[k - 1], k - 1, |input|);
      SlotAfterSnoc(Idle(Wanted(pid)), Own(input, k - 1, pid), input[k - 1]);
      assert Own(input, k - 1, pid) + [] == Own(input, k - 1, pid);
    }
  }

  /** The packets that are looked into. */
  function EligibleOf(fs: seq<Feed>): seq<Feed> {
    if fs == [] then []
    else EligibleOf(fs[..|fs| - 1]) + if Eligible(fs[|fs| - 1].packet) then [fs[|fs| - 1]] else []
  }

  lemma EligibleOfSnoc(fs: seq<Feed>, f: Feed)
    ensures EligibleOf(fs + [f]) == EligibleOf(fs) + if Eligible(f.packet) then [f] else []
  {
    assert (fs + [f])[..|fs|] == fs;
  }

  /** A PID's packets that were accepted and are looked into. */
  function LookedInto(input: seq<Feed>, k: nat, pid: nat): seq<Feed>
    requires k <= |input|
  {
    EligibleOf(Own(input, k, pid))
  }

  /** One more packet of the file. */
  lemma LookedIntoStep(input: seq<Feed>, k: nat, pid: nat)
    requires 0 < k <= |input|
    ensures var f := input[k - 1];
      LookedInto(input, k, pid) == LookedInto(input, k - 1, pid)
        + if Accepts(input, k - 1) && Pid(f.packet) == pid && Eligible(f.packet) then [f] else []
  {
    hide Accepts, Pid, EligibleOf, Eligible;
    var own, f := Own(input, k - 1, pid), input[k - 1];
    if Accepts(input, k - 1) && Pid(f.packet) == pid {
      assert Own(input, k, pid) == own + [f];
      EligibleOfSnoc(own, f);
    } else {
      assert Own(input, k, pid) == own;
    }
  }

  lemma AdvanceAllSnoc(s: Slot, fs: seq<Feed>, f: Feed)
    requires SlotValid(s)
    ensures AdvanceAll(s, fs + [f]) == Advance(AdvanceAll(s, fs), f)
  {
    assert (fs + [f])[..|fs|] == fs;
  }

  lemma {:induction false} OwnHasPid(input: seq<Feed>, k: nat, pid: nat)
    requires k <= |input|
    ensures forall i :: 0 <= i < |Own(input, k, pid)| ==> Pid(Own(input, k, pid)[i].packet) == pid
    decreases k
  {
    hide Pid, After;
    if k > 0 {
      OwnHasPid(input, k - 1, pid);
    }
  }

  /** An enabled slot of any PID but the PAT's never stops collecting its eligible packets. */
  lemma {:induction false} StaysEnabled(fs: seq<Feed>)
    requires forall i :: 0 <= i < |fs| ==> Pid(fs[i].packet) != PAT_PID
    ensures SlotAfter(Idle(true), fs) == AdvanceAll(Idle(true), EligibleOf(fs))
    decreases |fs|
  {
    hide Pid, Eligible, StepSlot, SlotValid;
    if fs != [] {
      var n := |fs| - 1;
      var before := EligibleOf(fs[..n]);
      StaysEnabled(fs[..n]);
      BufferHoldsContributions(true, before);
      if Eligible(fs[n].packet) {
        AdvanceAllSnoc(Idle(true), before, fs[n]);
      } else {
        assert EligibleOf(fs) == before;
      }
    }
  }

  /**
   In every state of every run the TOT's buffer is that of reassembly over its PID's accepted,
   eligible packets, so what holds there of buffers and delivered sections holds here.
   */
  lemma {:induction false} TotBuffer(input: seq<Feed>, k: nat)
    requires k <= |input|
    ensures var fs := LookedInto(input, k, TOT_PID); var s := After(input, k).slots[TOT_PID];
      && s == AdvanceAll(Idle(true), fs)
      && s.copied == |Reassembly.Collected(true, fs)| <= |s.payload|
      && s.payload[..s.copied] == Reassembly.Collected(true, fs)
  {
    hide After, Own, SlotAfter, EligibleOf, AdvanceAll, Reassembly.Collected;
    SlotsAreIndependent(input, k, TOT_PID);
    OwnHasPid(input, k, TOT_PID);
    StaysEnabled(Own(input, k, TOT_PID));
    BufferHoldsContributions(true, EligibleOf(Own(input, k, TOT_PID)));
  }
}
