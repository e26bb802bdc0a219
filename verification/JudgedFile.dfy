/**
 When a file's judgement matters to the loss bounds: two concrete files that break them, and
 exactly when a file's own losses bound those of everything that is left of it.
 */
module JudgedFile {
  import opened Bytes
  import opened Header
  import opened Continuity
  import opened LossBound
  import opened GapCount
  import opened PidIndependence
  import opened Samples
  import SectionAssembly
  import opened Reassembly
  import opened Sums
  import opened Analysis
  import opened Accounting
  import opened FileLoss

  // ---------------------------------------------------------------- concrete files

  /** Three packets that have each lost their predecessors. */
  function Goods(): seq<Packet> {
    [Good(0), Good(5), Good(10)]
  }

  function NoSyncs(n: nat): (ps: seq<Packet>)
    ensures |ps| == n && forall i :: 0 <= i < n ==> ps[i] == NoSync()
  {
    seq(n, _ => NoSync())
  }

  /** `n` packets without the sync byte, then the three. */
  function FileOf(n: nat): seq<Packet> {
    NoSyncs(n) + Goods()
  }

  /** Twice 51 packets without the sync byte, kept apart by one that has it, then the three. */
  function Parted(): seq<Packet> {
    NoSyncs(51) + [Good(3)] + (NoSyncs(51) + Goods())
  }

  function Fed(ps: seq<Packet>, around: SectionAssembly.Surroundings): (fs: seq<Feed>)
    ensures |fs| == |ps|
    ensures forall i :: 0 <= i < |ps| ==> fs[i] == Feed(ps[i], around)
    ensures PacketsOf(fs) == ps
  {
    seq(|ps|, i requires 0 <= i < |ps| => Feed(ps[i], around))
  }

  lemma {:induction false} NoneSynced(ps: seq<Packet>)
    requires forall i :: 0 <= i < |ps| ==> ps[i] == NoSync()
    ensures SyncedOf(ps) == []
    decreases |ps|
  {
    if ps != [] {
      NoneSynced(ps[..|ps| - 1]);
    }
  }

  lemma {:induction false} AllSynced(ps: seq<Packet>)
    requires forall i :: 0 <= i < |ps| ==> Synced(ps[i])
    ensures SyncedOf(ps) == ps
    decreases |ps|
  {
    hide Synced;
    if ps != [] {
      AllSynced(ps[..|ps| - 1]);
    }
  }

  lemma {:induction false} SyncedAppend(a: seq<Packet>, b: seq<Packet>)
    ensures SyncedOf(a + b) == SyncedOf(a) + SyncedOf(b)
    decreases |b|
  {
    hide Synced;
    if b == [] {
      assert a + b == a;
    } else {
      SyncedAppend(a, b[..|b| - 1]);
      assert (a + b)[..|a + b| - 1] == a + b[..|b| - 1];
    }
  }

  lemma GoodsFields()
    ensures forall i :: 0 <= i < 3 ==> Synced(Goods()[i]) && Pid(Goods()[i]) == 1
  {
    hide Synced, Pid, Good;
    GoodFields(0);
    GoodFields(5);
    GoodFields(10);
  }

  lemma GoodsLength()
    ensures |Goods()| == 3 && Goods()[0] == Good(0)
  {
    hide Good;
  }

  lemma {:induction false} SyncedOfFile(n: nat)
    ensures SyncedOf(FileOf(n)) == Goods()
  {
    hide Synced, Goods, SyncedOf, NoSyncs;
    GoodsFields();
    GoodsLength();
    NoneSynced(NoSyncs(n));
    AllSynced(Goods());
    SyncedAppend(NoSyncs(n), Goods());
  }

  lemma FileIs(n: nat)
    ensures FileOf(n) == NoSyncs(n) + Goods()
  {}

  lemma {:induction false} SyncedOfParted()
    ensures SyncedOf(Parted()) == [Good(3)] + Goods()
  {
    hide Synced, Goods, SyncedOf, NoSyncs, Good, FileOf;
    GoodFields(3);
    NoneSynced(NoSyncs(51));
    AllSynced([Good(3)]);
    SyncedAppend(NoSyncs(51), [Good(3)]);
    assert FileOf(51) == NoSyncs(51) + Goods() by { FileIs(51); }
    SyncedOfFile(51);
    SyncedAppend(NoSyncs(51) + [Good(3)], FileOf(51));
  }

  // ---------------------------------------------------------------- what the monitor says about them

  lemma FirstCounted(p: Packet)
    ensures var c := Count(Fresh(), p); c.drop == 0 && c.use == 1 && c.repeat == 0 && c.before == p
    ensures Run([]) == Fresh() && Run([p]) == Count(Fresh(), p)
  {
    hide Pid, HasPayload, Discontinuity, HeaderCounter;
    assert [p][..0] == [];
  }

  /** A run that has just counted a packet with this counter, and reported so many losses. */
  ghost predicate Stands(ps: seq<Packet>, counter: nat, losses: nat)
    requires counter < 16
  {
    var c := Run(ps);
    c.drop == losses && c.use == 1 && c.repeat == 0 && c.before == Good(counter)
  }

  lemma StandsFirst(x: nat)
    requires x < 16
    ensures Stands([Good(x)], x, 0)
  {
    hide Count, Good, Fresh, Run;
    FirstCounted(Good(x));
  }

  /** One more packet, `k` counters too late. */
  lemma StandsNext(ps: seq<Packet>, x: nat, losses: nat, y: nat, k: nat)
    requires x < 16 && y < 16 && k % 16 != 0 && k % 16 != 15 && (x + 1 + k) % 16 == y
    requires Stands(ps, x, losses)
    ensures Stands(ps + [Good(y)], y, losses + 1)
  {
    hide Count, Good, Pid, HasPayload, Discontinuity, HeaderCounter, Run;
    GoodFields(x);
    GoodFields(y);
    RunSnoc(ps, Good(y));
    JudgedGap(Run(ps), Good(y), x, k);
  }

  /** The monitor reports two losses among the three. */
  lemma {:induction false} TwoLosses()
    ensures Run(Goods()).drop == 2
  {
    hide Good, Run;
    StandsFirst(0);
    StandsNext([Good(0)], 0, 0, 5, 4);
    StandsNext([Good(0)] + [Good(5)], 5, 1, 10, 4);
    assert Goods() == [Good(0)] + [Good(5)] + [Good(10)];
  }

  /** And three if one more comes before them. */
  lemma {:induction false} ThreeLosses()
    ensures Run([Good(3)] + Goods()).drop == 3
  {
    hide Good, Run;
    StandsFirst(3);
    StandsNext([Good(3)], 3, 0, 0, 12);
    StandsNext([Good(3)] + [Good(0)], 0, 1, 5, 4);
    StandsNext([Good(3)] + [Good(0)] + [Good(5)], 5, 2, 10, 4);
    assert [Good(3)] + Goods() == [Good(3)] + [Good(0)] + [Good(5)] + [Good(10)];
  }

  lemma {:induction false} SumAtLeast(xs: seq<int>, i: nat)
    requires i < |xs| && forall j :: 0 <= j < |xs| ==> xs[j] >= 0
    ensures Sum(xs) >= xs[i]
    ensures Sum(xs) >= 0
    decreases |xs|
  {
    if i < |xs| - 1 {
      SumAtLeast(xs[..|xs| - 1], i);
    } else if |xs| > 1 {
      SumAtLeast(xs[..|xs| - 1], 0);
    }
  }

  lemma {:induction false} AllOfPid(ps: seq<Packet>, pid: nat)
    requires forall i :: 0 <= i < |ps| ==> Pid(ps[i]) == pid
    ensures OfPid(ps, pid) == ps
    decreases |ps|
  {
    hide Pid;
    if ps != [] {
      AllOfPid(ps[..|ps| - 1], pid);
    }
  }

  /** The losses of a stream on PID 1 are among those of all PIDs. */
  lemma {:induction false} PidOneCounts(ps: seq<Packet>)
    requires forall i :: 0 <= i < |ps| ==> Pid(ps[i]) == 1
    ensures Sum(Drops(RunAll(ps))) >= Run(ps).drop
  {
    hide Run, Sum, Pid, RunAll, OfPid;
    AllOfPid(ps, 1);
    Independence(ps, 1);
    SumAtLeast(Drops(RunAll(ps)), 1);
  }

  lemma {:induction false} FileHasTwo(n: nat, around: SectionAssembly.Surroundings)
    ensures SyncedDrops(Fed(FileOf(n), around)) >= 2
  {
    hide FileOf, Fed, RunAll, Sum, Drops, SyncedOf, Run, Goods, Pid, Synced;
    SyncedOfFile(n);
    GoodsFields();
    GoodsLength();
    PidOneCounts(Goods());
    TwoLosses();
  }

  lemma {:induction false} PartedHasThree(around: SectionAssembly.Surroundings)
    ensures SyncedDrops(Fed(Parted(), around)) >= 3
  {
    hide Parted, Fed, RunAll, Sum, Drops, SyncedOf, Run, Goods, Pid, Synced, Good;
    SyncedOfParted();
    GoodsFields();
    GoodsLength();
    GoodFields(3);
    PidOneCounts([Good(3)] + Goods());
    ThreeLosses();
  }

  // ---------------------------------------------------------------- whether they are judged

  lemma NoDrops()
    ensures Sum(Drops(RunAll([]))) == 0
  {
    hide Sum;
    SumZero(Drops(RunAll([])));
  }

  /** With 102 packets without the sync byte in front nothing is counted. */
  lemma {:induction false} JudgedReportsNothing(around: SectionAssembly.Surroundings)
    ensures var input := Fed(FileOf(102), around);
      After(input, |input|).notTs && FileDrops(input) == 0
  {
    hide After, Accepted, RunAll, Sum, Goods, SyncedOf, Drops;
    var input := Fed(FileOf(102), around);
    assert BadStretch(input, 102, LATCH_RUN) by { hide Fed; }
    LatchIffBadStretch(input, 102);
    LatchedForever(input, 102, |input|);
    NoneSynced(PacketsOf(input)[..102]);
    AcceptedIsSynced(input, 102);
    CountsAreRun(input, 102);
    NoDrops();
  }

  /** A file of at most 102 packets around one with the sync byte is not judged. */
  lemma {:induction false} NotJudged(input: seq<Feed>, i: nat)
    requires i < LATCH_RUN && i < |input| <= i + LATCH_RUN && !Bad(input[i])
    ensures !After(input, |input|).notTs
  {
    hide After, Bad;
    LatchIffBadStretch(input, |input|);
  }

  // ---------------------------------------------------------------- deleting one packet

  function OneOut(a: nat, b: nat): (keep: seq<bool>)
    ensures |keep| == a + 1 + b
  {
    seq(a, _ => true) + [false] + seq(b, _ => true)
  }

  lemma {:induction false} AllSurvive(ps: seq<Packet>)
    ensures Survivors(ps, seq(|ps|, _ => true)) == ps && Deleted(seq(|ps|, _ => true)) == 0
    decreases |ps|
  {
    if ps != [] {
      AllSurvive(ps[..|ps| - 1]);
      assert seq(|ps|, _ => true)[..|ps| - 1] == seq(|ps| - 1, _ => true);
    }
  }

  lemma OneOutGrows(a: nat, b: nat)
    ensures OneOut(a, b + 1) == OneOut(a, b) + [true]
    ensures OneOut(a, 0) == seq(a, _ => true) + [false]
  {}

  lemma {:induction false} OneGone(a: seq<Packet>, p: Packet, b: seq<Packet>)
    ensures Survivors(a + [p] + b, OneOut(|a|, |b|)) == a + b && Deleted(OneOut(|a|, |b|)) == 1
    decreases |b|
  {
    hide Survivors, Deleted, OneOut;
    if b == [] {
      OneOutGrows(|a|, 0);
      AllSurvive(a);
      SurvivorsSnoc(a, seq(|a|, _ => true), p, false);
      DeletedSnoc(seq(|a|, _ => true), false);
      assert a + [p] + b == a + [p] && a + b == a + [] == a;
    } else {
      var n := |b| - 1;
      OneGone(a, p, b[..n]);
      OneOutGrows(|a|, n);
      SurvivorsSnoc(a + [p] + b[..n], OneOut(|a|, n), b[n], true);
      DeletedSnoc(OneOut(|a|, n), true);
      assert a + [p] + b == (a + [p] + b[..n]) + [b[n]];
      assert a + b == (a + b[..n]) + [b[n]];
    }
  }

  lemma GoodIsNotBad(f: Feed)
    ensures Synced(f.packet) ==> !Bad(f)
  {}

  /**
   A judged file that reports no loss, and what is left of it when one packet without the sync
   byte is deleted: at least two losses, more than the growing bound.
   */
  lemma {:induction false} JudgedFileExceedsBound(around: SectionAssembly.Surroundings)
    ensures var input, thinned, keep := Fed(FileOf(102), around), Fed(FileOf(101), around), OneOut(0, 104);
      && Thins(input, keep, thinned)
      && After(input, |input|).notTs
      && FileDrops(thinned) > FileDrops(input) + Deleted(keep) >= FileDrops(input) + FileStretches(input, keep)
  {
    hide After, Goods, Fed, Survivors, FileDrops, FileStretches, SyncedDrops, RunAll, Sum, Drops, Deleted, OneOut, Bad;
    var input, thinned, keep := Fed(FileOf(102), around), Fed(FileOf(101), around), OneOut(0, 104);
    GoodsLength();
    GoodsFields();
    assert [] + [NoSync()] + FileOf(101) == FileOf(102);
    OneGone([], NoSync(), FileOf(101));
    assert [] + FileOf(101) == FileOf(101);
    JudgedReportsNothing(around);
    assert !Bad(thinned[101]) by { hide Synced; GoodIsNotBad(thinned[101]); }
    NotJudged(thinned, 101);
    FileDropsOfSynced(thinned);
    FileHasTwo(101, around);
    FileLossBound(input, thinned, keep);
  }

  /**
   A file that is not judged and reports at least three losses, and what is left of it when the
   one packet between two stretches without the sync byte is deleted: judged, and no loss is
   reported, less than the falling bound allows.
   */
  lemma {:induction false} JudgedRestFallsShort(around: SectionAssembly.Surroundings)
    ensures var input, thinned, keep := Fed(Parted(), around), Fed(FileOf(102), around), OneOut(51, 54);
      && Thins(input, keep, thinned)
      && !After(input, |input|).notTs && After(thinned, |thinned|).notTs
      && FileDrops(input) > FileDrops(thinned) + Deleted(keep) + FileStretches(input, keep)
  {
    hide After, Goods, Fed, Survivors, FileDrops, FileStretches, SyncedDrops, RunAll, Sum, Drops, Deleted,
         OneOut, Bad, Good, Synced;
    var input, thinned, keep := Fed(Parted(), around), Fed(FileOf(102), around), OneOut(51, 54);
    GoodsLength();
    OneGone(NoSyncs(51), Good(3), NoSyncs(51) + Goods());
    assert NoSyncs(51) + (NoSyncs(51) + Goods()) == FileOf(102);
    JudgedReportsNothing(around);
    GoodFields(3);
    GoodIsNotBad(input[51]);
    NotJudged(input, 51);
    FileDropsOfSynced(input);
    PartedHasThree(around);
    FileLossBound(input, thinned, keep);
  }

  // ---------------------------------------------------------------- exactly when

  /** The bound for one choice of deleted packets. */
  predicate Bounded(input: seq<Feed>, keep: seq<bool>, thinned: seq<Feed>)
    requires |keep| == |input|
  {
    FileDrops(thinned) <= FileDrops(input) + FileStretches(input, keep)
  }

  /** Only the packets with the sync byte are kept. */
  function OnlySynced(ps: seq<Packet>): (keep: seq<bool>)
    ensures |keep| == |ps|
    ensures forall i :: 0 <= i < |ps| ==> keep[i] == Synced(ps[i])
  {
    seq(|ps|, i requires 0 <= i < |ps| => Synced(ps[i]))
  }

  predicate AllKept(keep: seq<bool>) {
    forall i :: 0 <= i < |keep| ==> keep[i]
  }

  lemma {:induction false} KeepingSynced(ps: seq<Packet>)
    ensures Survivors(ps, OnlySynced(ps)) == SyncedOf(ps)
    ensures AllKept(SyncedKeep(ps, OnlySynced(ps)))
    ensures forall p :: p in SyncedOf(ps) ==> Synced(p)
    decreases |ps|
  {
    hide Synced;
    if ps != [] {
      KeepingSynced(ps[..|ps| - 1]);
      assert OnlySynced(ps)[..|ps| - 1] == OnlySynced(ps[..|ps| - 1]);
    }
  }

  lemma {:induction false} KeptFlags(ps: seq<Packet>, keep: seq<bool>, pid: nat)
    requires |ps| == |keep| && AllKept(keep)
    ensures AllKept(KeepOf(ps, keep, pid))
    decreases |ps|
  {
    hide Pid;
    if ps != [] {
      KeptFlags(ps[..|ps| - 1], keep[..|ps| - 1], pid);
    }
  }

  lemma {:induction false} NoGaps(keep: seq<bool>)
    requires AllKept(keep)
    ensures Gaps(keep) == 0
    decreases |keep|
  {
    if keep != [] {
      NoGaps(keep[..|keep| - 1]);
    }
  }

  /** Keeping exactly the packets with the sync byte deletes nothing that is counted. */
  lemma {:induction false} NoStretches(input: seq<Feed>)
    ensures FileStretches(input, OnlySynced(PacketsOf(input))) == 0
  {
    hide Sum, SyncedOf, SyncedKeep, KeepOf, Gaps;
    var ps := PacketsOf(input);
    var own, keep := SyncedOf(ps), SyncedKeep(ps, OnlySynced(ps));
    KeepingSynced(ps);
    forall i | 0 <= i < PID_COUNT
      ensures Stretches(own, keep)[i] == 0
    {
      KeptFlags(own, keep, i);
      NoGaps(KeepOf(own, keep, i));
    }
    SumZero(Stretches(own, keep));
  }

  /** What is left then reports all the losses among those packets. */
  lemma {:induction false} SyncedFileReports(input: seq<Feed>, around: SectionAssembly.Surroundings)
    ensures var thinned := Fed(SyncedOf(PacketsOf(input)), around);
      Thins(input, OnlySynced(PacketsOf(input)), thinned) && FileDrops(thinned) == SyncedDrops(input)
  {
    hide After, RunAll, Sum, Drops, SyncedOf, Survivors, Accepted, Synced;
    var ps := PacketsOf(input);
    var own := SyncedOf(ps);
    var thinned := Fed(own, around);
    KeepingSynced(ps);
    forall i | 0 <= i < |thinned|
      ensures !Bad(thinned[i])
    {
      assert own[i] in own;
    }
    AllAccepted(thinned, |thinned|);
    assert own[..|own|] == own;
    CountsAreRun(thinned, |thinned|);
  }

  /**
   The bound by a file's own losses holds for everything that is left of it exactly if no packet
   after 102 consecutive ones without the sync byte would have been a loss; in particular for
   every file without such a stretch.
   */
  lemma {:induction false} BoundedExactly(input: seq<Feed>)
    ensures (forall keep, thinned :: Thins(input, keep, thinned) ==> Bounded(input, keep, thinned))
       <==> NoneHidden(input, |input|)
    ensures NoneHidden(input, |input|) <==> FileDrops(input) == SyncedDrops(input)
    ensures !After(input, |input|).notTs ==> NoneHidden(input, |input|)
  {
    hide After, FileDrops, SyncedDrops, FileStretches, Survivors, OnlySynced, SyncedOf, NoneHidden, SkippedLosses;
    FileDropsOfSynced(input);
    SkippedExactly(input);
    NoneSkipped(input, |input|);
    if FileDrops(input) == SyncedDrops(input) {
      forall keep, thinned | Thins(input, keep, thinned)
        ensures Bounded(input, keep, thinned)
      {
        FileLossBound(input, thinned, keep);
      }
    } else {
      var around := SectionAssembly.Surroundings(_ => 0, _ => 0);
      var keep, thinned := OnlySynced(PacketsOf(input)), Fed(SyncedOf(PacketsOf(input)), around);
      SyncedFileReports(input, around);
      NoStretches(input);
      assert Thins(input, keep, thinned) && !Bounded(input, keep, thinned);
    }
  }
}
