/**
 Files from which packets have been deleted: what is left of a file reports neither many more
 losses than the file nor many fewer, and what a file's judgement hides is counted exactly.
 */
module FileLoss {
  import opened Bytes
  import opened Header
  import opened Continuity
  import opened LossBound
  import opened GapCount
  import opened PidIndependence
  import opened SectionAssembly
  import opened Reassembly
  import opened Sums
  import opened Analysis
  import opened Accounting

  function PacketsOf(input: seq<Feed>): (ps: seq<Packet>)
    ensures |ps| == |input| && forall i :: 0 <= i < |ps| ==> ps[i] == input[i].packet
  {
    seq(|input|, i requires 0 <= i < |input| => input[i].packet)
  }

  lemma StepGood(st: State, f: Feed, i: nat, n: nat)
    requires i < n && !st.notTs && !Bad(f)
    ensures !StepState(st, f, i, n).notTs
  {
    hide StepSynced, PercentOf;
    SyncedKeeps(st, f, PercentOf(i, n));
  }

  lemma StartGood()
    ensures !Start().notTs
  {
    hide Fresh, Idle, Wanted;
  }

  /** If every packet has the sync byte, every packet is accepted. */
  lemma {:induction false} AllAccepted(input: seq<Feed>, k: nat)
    requires k <= |input| && forall i :: 0 <= i < |input| ==> !Bad(input[i])
    ensures Accepted(input, k) == PacketsOf(input)[..k] && !After(input, k).notTs
    decreases k
  {
    hide StepState, Bad;
    if k > 0 {
      AllAccepted(input, k - 1);
      StepGood(After(input, k - 1), input[k - 1], k - 1, |input|);
      assert PacketsOf(input)[..k] == PacketsOf(input)[..k - 1] + [input[k - 1].packet];
    } else {
      StartGood();
    }
  }

  /** The packets with the sync byte. */
  function SyncedOf(ps: seq<Packet>): seq<Packet> {
    if ps == [] then []
    else SyncedOf(ps[..|ps| - 1]) + if Synced(ps[|ps| - 1]) then [ps[|ps| - 1]] else []
  }

  /** The flags of the packets with the sync byte. */
  function SyncedKeep(ps: seq<Packet>, keep: seq<bool>): (k: seq<bool>)
    requires |ps| == |keep|
    ensures |k| == |SyncedOf(ps)|
  {
    if ps == [] then []
    else
      var n := |ps| - 1;
      SyncedKeep(ps[..n], keep[..n]) + if Synced(ps[n]) then [keep[n]] else []
  }

  lemma SyncedSnoc(ps: seq<Packet>, p: Packet)
    ensures SyncedOf(ps + [p]) == SyncedOf(ps) + if Synced(p) then [p] else []
  {
    assert (ps + [p])[..|ps|] == ps;
  }

  lemma SyncedKeepSnoc(ps: seq<Packet>, keep: seq<bool>, p: Packet, k: bool)
    requires |ps| == |keep|
    ensures SyncedKeep(ps + [p], keep + [k]) == SyncedKeep(ps, keep) + if Synced(p) then [k] else []
  {
    assert (ps + [p])[..|ps|] == ps && (keep + [k])[..|keep|] == keep;
  }

  lemma DeletedSnoc(keep: seq<bool>, k: bool)
    ensures Deleted(keep + [k]) == Deleted(keep) + if k then 0 else 1
  {
    assert (keep + [k])[..|keep|] == keep;
  }

  /** One more packet on both sides. */
  lemma SyncedStep(ps: seq<Packet>, keep: seq<bool>, p: Packet, k: bool)
    requires |ps| == |keep|
    requires SyncedOf(Survivors(ps, keep)) == Survivors(SyncedOf(ps), SyncedKeep(ps, keep))
    requires Deleted(SyncedKeep(ps, keep)) <= Deleted(keep)
    ensures SyncedOf(Survivors(ps + [p], keep + [k])) == Survivors(SyncedOf(ps + [p]), SyncedKeep(ps + [p], keep + [k]))
    ensures Deleted(SyncedKeep(ps + [p], keep + [k])) <= Deleted(keep + [k])
  {
    hide Synced, SyncedOf, SyncedKeep, Survivors, Deleted;
    var own, flags := SyncedOf(ps), SyncedKeep(ps, keep);
    SurvivorsSnoc(ps, keep, p, k);
    SyncedSnoc(ps, p);
    SyncedKeepSnoc(ps, keep, p, k);
    DeletedSnoc(keep, k);
    DeletedSnoc(flags, k);
    SurvivorsSnoc(own, flags, p, k);
    SyncedSnoc(Survivors(ps, keep), p);
    assert own + [] == own && flags + [] == flags && Survivors(ps, keep) + [] == Survivors(ps, keep);
    assert Survivors(own, flags) + [] == Survivors(own, flags);
  }

  /** Deleting packets and selecting those with the sync byte commute, and the others only add to what is deleted. */
  lemma {:induction false} SurvivorsOfSynced(ps: seq<Packet>, keep: seq<bool>)
    requires |ps| == |keep|
    ensures SyncedOf(Survivors(ps, keep)) == Survivors(SyncedOf(ps), SyncedKeep(ps, keep))
    ensures Deleted(SyncedKeep(ps, keep)) <= Deleted(keep)
    decreases |ps|
  {
    hide Synced;
    if ps != [] {
      hide SyncedOf, SyncedKeep, Survivors, Deleted;
      var n := |ps| - 1;
      SurvivorsOfSynced(ps[..n], keep[..n]);
      SyncedStep(ps[..n], keep[..n], ps[n], keep[n]);
      assert ps[..n] + [ps[n]] == ps && keep[..n] + [keep[n]] == keep;
    }
  }

  /** The counted packets are the first ones with the sync byte, and all of them if the file is not judged. */
  lemma {:induction false} AcceptedIsSynced(input: seq<Feed>, k: nat)
    requires k <= |input|
    ensures Accepted(input, k) <= SyncedOf(PacketsOf(input)[..k])
    ensures !After(input, k).notTs ==> Accepted(input, k) == SyncedOf(PacketsOf(input)[..k])
    decreases k
  {
    hide StepSynced, Synced;
    if k > 0 {
      AcceptedIsSynced(input, k - 1);
      assert PacketsOf(input)[..k] == PacketsOf(input)[..k - 1] + [input[k - 1].packet];
      SyncedSnoc(PacketsOf(input)[..k - 1], input[k - 1].packet);
    }
  }

  lemma DropsGrow(ps: seq<Packet>)
    requires ps != []
    ensures Sum(Drops(RunAll(ps[..|ps| - 1]))) <= Sum(Drops(RunAll(ps)))
  {
    hide Sum, Pid, Loses, RepeatAfter;
    SumMonotone(Drops(RunAll(ps[..|ps| - 1])), Drops(RunAll(ps)));
  }

  /** More packets of the same stream never report fewer losses. */
  lemma {:induction false} DropsMonotone(ps: seq<Packet>, more: seq<Packet>)
    requires ps <= more
    ensures Sum(Drops(RunAll(ps))) <= Sum(Drops(RunAll(more)))
    decreases |more|
  {
    hide Sum, RunAll, Drops;
    if |ps| < |more| {
      DropsMonotone(ps, more[..|more| - 1]);
      DropsGrow(more);
    } else {
      assert ps == more;
    }
  }

  /** The losses that a file reports. */
  function FileDrops(input: seq<Feed>): int {
    Sum(Drops(After(input, |input|).counts))
  }

  /** The losses among all its packets with the sync byte, also those that are skipped once it is judged. */
  function SyncedDrops(input: seq<Feed>): int {
    Sum(Drops(RunAll(SyncedOf(PacketsOf(input)))))
  }

  /** The first are at most the second, and equal if the file is not judged. */
  lemma {:induction false} FileDropsOfSynced(input: seq<Feed>)
    ensures FileDrops(input) <= SyncedDrops(input)
    ensures !After(input, |input|).notTs ==> FileDrops(input) == SyncedDrops(input)
  {
    hide After, Accepted, RunAll, Sum, Drops, SyncedOf;
    assert PacketsOf(input)[..|input|] == PacketsOf(input);
    CountsAreRun(input, |input|);
    AcceptedIsSynced(input, |input|);
    DropsMonotone(Accepted(input, |input|), SyncedOf(PacketsOf(input)));
  }

  /** The maximal runs of deleted packets, counted for each PID over the packets with the sync byte. */
  function FileStretches(input: seq<Feed>, keep: seq<bool>): int
    requires |keep| == |input|
  {
    Sum(Stretches(SyncedOf(PacketsOf(input)), SyncedKeep(PacketsOf(input), keep)))
  }

  /** `thinned` is what is left of `input` when only the packets with a flag are kept. */
  predicate Thins(input: seq<Feed>, keep: seq<bool>, thinned: seq<Feed>) {
    |keep| == |input| && PacketsOf(thinned) == Survivors(PacketsOf(input), keep)
  }

  // ---------------------------------------------------------------- what the judgement hides

  lemma CountedLoss(c: DropCount, p: Packet)
    ensures Count(c, p).drop == c.drop + Flag(Loses(c, p))
  {
    hide HasPayload, Pid, Discontinuity, HeaderCounter;
  }

  lemma DropsStep(counts: Counters, p: Packet)
    ensures Sum(Drops(CountAt(counts, p))) == Sum(Drops(counts)) + Flag(Loses(counts[Pid(p)], p))
  {
    hide Sum, Pid, Loses, RepeatAfter;
    var pid := Pid(p);
    var xs, ys := Drops(counts), Drops(CountAt(counts, p));
    CountedLoss(counts[pid], p);
    assert ys == xs[pid := xs[pid] + Flag(Loses(counts[pid], p))];
    SumUpdate(xs, pid, xs[pid] + Flag(Loses(counts[pid], p)));
  }

  /** Packet `i` is a loss to a monitor that sees all packets with the sync byte. */
  predicate LostAt(input: seq<Feed>, i: nat)
    requires i < |input|
  {
    var p := input[i].packet;
    Synced(p) && Loses(RunAll(SyncedOf(PacketsOf(input)[..i]))[Pid(p)], p)
  }

  /** The losses among the packets that are skipped because the file has been judged. */
  function SkippedLosses(input: seq<Feed>, k: nat): nat
    requires k <= |input|
  {
    if k == 0 then 0 else SkippedLosses(input, k - 1) + Flag(After(input, k - 1).notTs && LostAt(input, k - 1))
  }

  /** One more packet: it is counted by both, or by the monitor of all alone. */
  lemma {:induction false} SkippedStep(input: seq<Feed>, k: nat)
    requires 0 < k <= |input|
    ensures Sum(Drops(RunAll(SyncedOf(PacketsOf(input)[..k]))))
         == Sum(Drops(RunAll(SyncedOf(PacketsOf(input)[..k - 1])))) + Flag(LostAt(input, k - 1))
    ensures Sum(Drops(After(input, k).counts))
         == Sum(Drops(After(input, k - 1).counts)) + Flag(!After(input, k - 1).notTs && LostAt(input, k - 1))
  {
    hide StepState, Synced, SyncedOf, RunAll, Accepted, Sum, Drops, CountAt, Loses, Pid;
    var front, p := SyncedOf(PacketsOf(input)[..k - 1]), input[k - 1].packet;
    assert PacketsOf(input)[..k] == PacketsOf(input)[..k - 1] + [p];
    SyncedSnoc(PacketsOf(input)[..k - 1], p);
    assert front + [] == front;
    RunAllSnoc(front, p);
    DropsStep(RunAll(front), p);
    StepCounts(After(input, k - 1), input[k - 1], k - 1, |input|);
    if !After(input, k - 1).notTs {
      CountsAreRun(input, k - 1);
      AcceptedIsSynced(input, k - 1);
    }
  }

  lemma NothingCounted(input: seq<Feed>)
    ensures RunAll(SyncedOf(PacketsOf(input)[..0])) == After(input, 0).counts
  {
    hide Fresh, Idle, Wanted;
  }

  lemma {:induction false} SkippedUpTo(input: seq<Feed>, k: nat)
    requires k <= |input|
    ensures Sum(Drops(RunAll(SyncedOf(PacketsOf(input)[..k])))) == Sum(Drops(After(input, k).counts)) + SkippedLosses(input, k)
    decreases k
  {
    hide After, SyncedOf, RunAll, Sum, Drops, LostAt;
    if k > 0 {
      SkippedUpTo(input, k - 1);
      SkippedStep(input, k);
    } else {
      NothingCounted(input);
    }
  }

  /** What a file reports and what its judgement hides are all the losses among its packets with the sync byte. */
  lemma {:induction false} SkippedExactly(input: seq<Feed>)
    ensures SyncedDrops(input) == FileDrops(input) + SkippedLosses(input, |input|)
  {
    hide After, SyncedOf, RunAll, Sum, Drops, SkippedLosses;
    assert PacketsOf(input)[..|input|] == PacketsOf(input);
    SkippedUpTo(input, |input|);
  }

  /** Packet `i` comes after 102 consecutive packets without the sync byte. */
  predicate AfterBadStretch(input: seq<Feed>, i: nat)
    requires i < |input|
  {
    exists j :: 0 <= j <= i && BadStretch(input, j, LATCH_RUN)
  }

  /** No packet after such a stretch is a loss. */
  predicate NoneHidden(input: seq<Feed>, k: nat)
    requires k <= |input|
  {
    forall i :: 0 <= i < k && AfterBadStretch(input, i) ==> !LostAt(input, i)
  }

  lemma LatchIsStretch(input: seq<Feed>, i: nat)
    requires i < |input|
    ensures After(input, i).notTs <==> AfterBadStretch(input, i)
  {
    hide After, BadStretch;
    LatchIffBadStretch(input, i);
  }

  lemma {:induction false} NoneSkipped(input: seq<Feed>, k: nat)
    requires k <= |input|
    ensures SkippedLosses(input, k) == 0 <==> NoneHidden(input, k)
    decreases k
  {
    hide After, LostAt, AfterBadStretch;
    if k > 0 {
      NoneSkipped(input, k - 1);
      LatchIsStretch(input, k - 1);
    }
  }

  // ---------------------------------------------------------------- the bounds

  /**
   Deleting any packets from any file adds at most one loss for each maximal run of them to
   those among its packets with the sync byte - and so, if the complete file is not judged, to
   those that it reports.  It hides at most that, one loss for each deleted packet, and what the
   judgement of the rest hides.
   */
  lemma {:induction false} FileLossBound(input: seq<Feed>, thinned: seq<Feed>, keep: seq<bool>)
    requires Thins(input, keep, thinned)
    ensures FileDrops(thinned) <= SyncedDrops(input) + FileStretches(input, keep)
    ensures !After(input, |input|).notTs ==> FileDrops(thinned) <= FileDrops(input) + FileStretches(input, keep)
    ensures FileDrops(input) <= SyncedDrops(thinned) + Deleted(keep) + FileStretches(input, keep)
    ensures FileDrops(thinned) == SyncedDrops(thinned) ==>
      FileDrops(input) <= FileDrops(thinned) + Deleted(keep) + FileStretches(input, keep)
    ensures !After(thinned, |thinned|).notTs ==> FileDrops(thinned) == SyncedDrops(thinned)
    ensures FileStretches(input, keep) <= Deleted(keep)
  {
    hide After, RunAll, Sum, Drops, Survivors, SyncedOf, SyncedKeep, Stretches, FileDrops;
    var ps := PacketsOf(input);
    SurvivorsOfSynced(ps, keep);
    TotalDropsNeverOverstateLoss(SyncedOf(ps), SyncedKeep(ps, keep));
    FileDropsOfSynced(input);
    FileDropsOfSynced(thinned);
  }

  // ---------------------------------------------------------------- exact counts

  /** The gaps that are noticed in what is left of a file. */
  function FileNoticed(input: seq<Feed>, keep: seq<bool>): int
    requires |keep| == |input|
  {
    Sum(NoticedOf(SyncedOf(PacketsOf(input)), SyncedKeep(PacketsOf(input), keep)))
  }

  /**
   If the streams of a file's PIDs are regular, then whatever is deleted from it, what is left
   reports exactly the gaps that are noticed, less those that its own judgement hides.
   */
  lemma {:induction false} FileGapsReported(input: seq<Feed>, thinned: seq<Feed>, keep: seq<bool>, firsts: seq<nat>)
    requires Thins(input, keep, thinned) && RegularStream(SyncedOf(PacketsOf(input)), firsts)
    ensures FileDrops(thinned) + SkippedLosses(thinned, |thinned|) == FileNoticed(input, keep)
    ensures !After(thinned, |thinned|).notTs ==> FileDrops(thinned) == FileNoticed(input, keep)
  {
    hide After, RunAll, Sum, Drops, Survivors, SyncedOf, SyncedKeep, NoticedOf, RegularStream, FileDrops, SkippedLosses;
    var ps := PacketsOf(input);
    SurvivorsOfSynced(ps, keep);
    StreamGapsReported(SyncedOf(ps), firsts, SyncedKeep(ps, keep));
    SkippedExactly(thinned);
    FileDropsOfSynced(thinned);
  }
}
