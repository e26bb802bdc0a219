/**
 The packet loop of tsanalytics.c on its mutable state: the counter array, the table of
 reassembly buffers, and the two linked lists of losses.
 */
module Analyzers {
  import opened Bytes
  import opened Header
  import opened Continuity
  import opened LossBound
  import opened PidIndependence
  import opened SectionAssembly
  import opened Reassembly
  import opened DropLists
  import opened Calendar
  import opened Tot
  import Pat
  import opened Analysis

  // ---------------------------------------------------------------- the reassembly buffers

  /** One PID's part: errors and packets without a payload are skipped, and a completed PAT is collected only once. */
  method CollectInto(slot: PacketSlot, buf: Packet, head: TsHead, stale: TsHead, around: Surroundings) returns (done: bool)
    requires SlotValid(slot.State()) && Synced(buf) && head == HeadOf(buf)
    modifies slot, slot.payload
    ensures (slot.State(), done) == StepEnabled(old(slot.State()), Feed(buf, around))
    ensures slot.payload == old(slot.payload) || fresh(slot.payload)
  {
    hide StepSlot, SlotValid, AdaptOf, PayloadStart;
    done := false;
    if head.transportError != 1 && head.adaptationControl != 2 && slot.enable {
      var r := slot.Store(buf, stale, around);
      done := r == 1;
      if done && head.pid == PAT_PID {
        slot.enable := false;
      }
    }
  }

  /** The 8192 entries of `packet_list`. */
  class PacketTable {
    const slots: seq<PacketSlot>
    ghost var Repr: set<object>

    ghost predicate Valid()
      reads this, Repr
      ensures Valid() ==> this in Repr
    {
      && this in Repr
      && |slots| == PID_COUNT
      && (forall i :: 0 <= i < PID_COUNT ==> slots[i] in Repr && (slots[i].payload != null ==> slots[i].payload in Repr))
      && (forall i, j :: 0 <= i < j < PID_COUNT ==> slots[i] != slots[j])
      && (forall i, j :: 0 <= i < j < PID_COUNT && slots[i].payload != null ==> slots[i].payload != slots[j].payload)
      && (forall i :: 0 <= i < PID_COUNT ==> SlotValid(slots[i].State()))
    }

    ghost function States(): Slots
      requires Valid()
      reads this, Repr
    {
      seq(PID_COUNT, i requires 0 <= i < PID_COUNT && Valid() reads this, Repr => slots[i].State())
    }

    /** Only the PAT and the TOT are enabled. */
    constructor ()
      ensures Valid() && fresh(Repr)
      ensures States() == Start().slots
    {
      var s: seq<PacketSlot> := [];
      ghost var r: set<object> := {};
      for pid := 0 to PID_COUNT
        invariant |s| == pid
        invariant forall i :: 0 <= i < pid ==> s[i] in r && s[i].State() == Idle(Wanted(i)) && s[i].payload == null
        invariant forall i, j :: 0 <= i < j < pid ==> s[i] != s[j]
        invariant fresh(r)
      {
        var slot := new PacketSlot(Wanted(pid));
        s := s + [slot];
        r := r + {slot};
      }
      slots := s;
      Repr := r + {this};
    }

    /** The collecting part of the loop: skip, or hand the packet to the buffer of its PID. */
    method Collect(buf: Packet, head: TsHead, stale: TsHead, around: Surroundings) returns (done: bool)
      requires Valid() && Synced(buf) && head == HeadOf(buf)
      modifies Repr
      ensures Valid() && fresh(Repr - old(Repr))
      ensures var r := StepEnabled(old(States())[Pid(buf)], Feed(buf, around));
        States() == old(States())[Pid(buf) := r.0] && done == r.1
    {
      hide StepEnabled, SlotValid, AdaptOf, PayloadStart, Pid;
      var pid := head.pid;
      ghost var before := States();
      assert before[pid] == slots[pid].State();
      done := CollectInto(slots[pid], buf, head, stale, around);
      if slots[pid].payload != null {
        Repr := Repr + {slots[pid].payload};
      }
      forall i | 0 <= i < PID_COUNT && i != pid
        ensures slots[i].State() == before[i] && slots[i].payload == old(slots[i].payload)
      {
        assert slots[i] != slots[pid];
      }
      assert Valid() by {
        forall i, j | 0 <= i < j < PID_COUNT && slots[i].payload != null
          ensures slots[i].payload != slots[j].payload
        {
          assert slots[i].payload == old(slots[i].payload) || fresh(slots[i].payload);
          assert slots[j].payload == old(slots[j].payload) || fresh(slots[j].payload);
        }
      }
      assert States() == before[pid := slots[pid].State()];
    }
  }

  // ---------------------------------------------------------------- the loss lists

  /** `drop_list_tot` and `drop_list_per`. */
  class LossLog {
    const byTot: DropList
    const byPercent: DropList
    ghost var Repr: set<object>

    ghost predicate Valid()
      reads this, Repr
      ensures Valid() ==> this in Repr
    {
      && this in Repr && byTot in Repr && byPercent in Repr && byTot != byPercent
      && (forall i :: 0 <= i < |byTot.nodes| ==> byTot.nodes[i] in Repr)
      && (forall i :: 0 <= i < |byPercent.nodes| ==> byPercent.nodes[i] in Repr)
      && (forall i, j :: 0 <= i < |byTot.nodes| && 0 <= j < |byPercent.nodes| ==> byTot.nodes[i] != byPercent.nodes[j])
      && byTot.Valid() && byPercent.Valid()
    }

    ghost function Contents(): Losses
      requires Valid()
      reads this, Repr
    {
      Losses(byTot.Contents(), byPercent.Contents())
    }

    constructor ()
      ensures Valid() && fresh(Repr)
      ensures Contents() == Losses([], [])
    {
      byTot := new DropList();
      byPercent := new DropList();
      Repr := {this, byTot, byPercent};
    }

    /** Both lists take the increments of the PID that has just been checked. */
    method Log(c: DropCount, tot: Key, percent: Key)
      requires Valid()
      modifies Repr
      ensures Valid() && fresh(Repr - old(Repr))
      ensures Contents() == Losses(Added(old(Contents()).byTot, Add(tot, c.nowDrop, c.nowError, c.nowScrambling)),
                                   Added(old(Contents()).byPercent, Add(percent, c.nowDrop, c.nowError, c.nowScrambling)))
    {
      hide Added, DropList.Valid, DropList.Contents;
      byTot.AddDrop(tot, c.nowDrop, c.nowError, c.nowScrambling);
      forall i | 0 <= i < |byTot.nodes|
        ensures byTot.nodes[i] in old(byTot.nodes) || fresh(byTot.nodes[i])
      {
        assert byTot.nodes[i] in byTot.nodes;
      }
      label logged:
      byPercent.AddDrop(percent, c.nowDrop, c.nowError, c.nowScrambling);
      forall j | 0 <= j < |byPercent.nodes|
        ensures byPercent.nodes[j] in old(byPercent.nodes) || fresh@logged(byPercent.nodes[j])
      {
        assert byPercent.nodes[j] in byPercent.nodes;
      }
      Repr := Repr + (set n | n in byTot.nodes) + (set n | n in byPercent.nodes);
    }
  }

  // ---------------------------------------------------------------- the packet loop

  /** A used entry's stored packet is one that had the sync byte. */
  predicate EntriesValid(counts: seq<DropCount>) {
    forall pid :: 0 <= pid < |counts| ==>
      counts[pid].use in {0, 1} && (counts[pid].use == 1 ==> Synced(counts[pid].before))
  }

  lemma FreshEntries()
    ensures EntriesValid(seq(PID_COUNT, _ => Fresh()))
  {}

  lemma SameAnomaly(c: DropCount, d: DropCount, p: Packet)
    requires d == c.(total := c.total + 1)
    ensures Anomalous(c, p) == Anomalous(d, p) && Loses(c, p) == Loses(d, p)
  {}

  /** The loop's own count and the continuity check. */
  method CountPacket(counts: array<DropCount>, buf: Packet, head: TsHead, stale: TsHead) returns (ok: nat)
    requires counts.Length == PID_COUNT && EntriesValid(counts[..])
    requires Synced(buf) && head == HeadOf(buf)
    modifies counts
    ensures EntriesValid(counts[..])
    ensures counts[..] == CountAt(old(counts[..]), buf)
    ensures ok == if Anomalous(old(counts[Pid(buf)]), buf) then 0 else 1
  {
    hide AdaptOf, PayloadStart, Loses, RepeatAfter, Pid;
    var pid := head.pid;
    ghost var c := counts[pid];
    counts[pid] := counts[pid].(total := counts[pid].total + 1);
    SameAnomaly(c, counts[pid], buf);
    ok := DropCheckAndCount(counts, buf, stale);
    assert counts[..] == CountAt(old(counts[..]), buf);
  }

  /** The increments that the checked entry holds are those of the packet. */
  lemma NowFields(c: DropCount, p: Packet, key: Key)
    ensures var d := Count(c, p); Add(key, d.nowDrop, d.nowError, d.nowScrambling) == AddOf(key, c, p)
  {
    SameAnomaly(c, c.(total := c.total + 1), p);
  }

  class Analyzer {
    const counts: array<DropCount>
    const table: PacketTable
    const log: LossLog
    var currentTot: Key
    var firstTot: Tm
    var lastTot: Tm
    var syncError: nat
    var syncErrRepeat: nat
    var notTs: bool
    var pat: FirstPat
    ghost var Repr: set<object>

    ghost predicate Valid()
      reads this, Repr
      ensures Valid() ==> this in Repr
    {
      && this in Repr && counts in Repr && table in Repr && log in Repr
      && table.Repr <= Repr && log.Repr <= Repr
      && table.Repr !! log.Repr && this !in table.Repr + log.Repr && counts !in table.Repr + log.Repr
      && counts.Length == PID_COUNT && EntriesValid(counts[..])
      && table.Valid() && log.Valid()
    }

    ghost function Current(): State
      requires Valid()
      reads this, Repr
    {
      State(counts[..], table.States(), log.Contents(), currentTot, firstTot, lastTot, syncError, syncErrRepeat, notTs, pat)
    }

    constructor ()
      ensures Valid() && fresh(Repr)
      ensures Current() == Start()
    {
      hide Fresh, Wanted, Idle, EntriesValid, LossLog.Valid, LossLog.Contents, SlotValid, PacketTable.Valid, PacketTable.States;
      counts := new DropCount[PID_COUNT](_ => Fresh());
      table := new PacketTable();
      log := new LossLog();
      currentTot, firstTot, lastTot := Unknown, NO_TIME, NO_TIME;
      syncError, syncErrRepeat, notTs, pat := 0, 0, false, NoPat;
      new;
      Repr := {this, counts} + table.Repr + log.Repr;
      FreshEntries();
      assert counts[..] == Start().counts;
    }

    /** Counting, checking and logging one packet. */
    method CheckDrop(buf: Packet, head: TsHead, percent: Key, stale: TsHead)
      requires Valid() && Synced(buf) && head == HeadOf(buf)
      modifies Repr
      ensures Valid() && fresh(Repr - old(Repr))
      ensures Current() == old(Current()).(
        counts := CountAt(old(Current()).counts, buf),
        losses := Logged(old(Current()).losses, old(Current()).counts[Pid(buf)], buf, old(currentTot), percent))
    {
      hide AdaptOf, PayloadStart, Loses, Count, EntriesValid, Anomalous, Added, Pid,
           LossLog.Valid, LossLog.Contents, PacketTable.Valid, PacketTable.States;
      var pid := head.pid;
      ghost var c := counts[pid];
      var ok := CountPacket(counts, buf, head, stale);
      if ok == 0 {
        NowFields(c, buf, currentTot);
        NowFields(c, buf, percent);
        assert counts[pid] == Count(c, buf);
        ghost var cs := counts[..];
        log.Log(counts[pid], currentTot, percent);
        assert counts[..] == cs;
        Repr := Repr + log.Repr;
      }
    }

    /** Taking the time from a completed section on the TOT PID. */
    method TakeTime(mem: Memory, stale: TsTot)
      requires Valid()
      modifies this`currentTot, this`firstTot, this`lastTot
      ensures Valid()
      ensures Current() == if ValidTot(mem) then WithTime(old(Current()), TimeAt(mem.From(3))) else old(Current())
    {
      hide ValidTot, TimeAt, EntriesValid, LossLog.Valid, LossLog.Contents, PacketTable.Valid, PacketTable.States;
      var tot := StTot(mem, stale);
      if tot.disable == 0 {
        currentTot := Clock(tot.tm);
        if firstTot.date.mday == 0 {
          firstTot := tot.tm;
        }
        lastTot := tot.tm;
      }
    }

    /** A packet without the sync byte; the limit is compared before the repeat count grows. */
    method CountSyncError()
      requires Valid() && !notTs
      modifies this`syncError, this`syncErrRepeat, this`notTs
      ensures Valid()
      ensures Current() == old(Current()).(
        syncError := old(syncError) + 1,
        notTs := old(syncErrRepeat) > SYNC_ERROR_LIMIT,
        syncErrRepeat := old(syncErrRepeat) + 1)
    {
      hide EntriesValid, LossLog.Valid, LossLog.Contents, PacketTable.Valid, PacketTable.States;
      syncError := syncError + 1;
      if syncErrRepeat > SYNC_ERROR_LIMIT {
        notTs := true;
      }
      syncErrRepeat := syncErrRepeat + 1;
    }

    /** One turn of the packet loop, for packet `i` of `n`. */
    method Process(buf: Packet, i: nat, n: nat, stale: Stale, around: Surroundings)
      requires Valid() && i < n
      modifies Repr
      ensures Valid() && fresh(Repr - old(Repr))
      ensures Current() == StepState(old(Current()), Feed(buf, around), i, n)
    {
      hide AdaptOf, PayloadStart, CountAt, Logged, Gather, PercentOf, EntriesValid, Pid,
           LossLog.Valid, LossLog.Contents, PacketTable.Valid, PacketTable.States;
      var percent := PercentOf(i, n);
      if notTs {
        return;
      }
      var head := StHead(buf, stale.head);
      if head.syncByte != SYNC_BYTE {
        CountSyncError();
        return;
      }
      syncErrRepeat := 0;
      CheckDrop(buf, head, percent, stale.head);
      CollectAndTime(buf, head, stale, around);
    }

    /** A completed section: the first PAT, or a time. */
    method TakeSection(pid: nat, mem: Memory, stale: TsTot)
      requires Valid()
      modifies this`pat, this`currentTot, this`firstTot, this`lastTot
      ensures Valid()
      ensures Current() == TakenFrom(old(Current()), pid, mem)
    {
      hide ValidTot, TimeAt, WithTime, Pat.PatAt, EntriesValid,
           LossLog.Valid, LossLog.Contents, PacketTable.Valid, PacketTable.States;
      if pid == PAT_PID {
        var first := Pat.StPat(mem);
        pat := Took(first);
      } else if pid == TOT_PID {
        TakeTime(mem, stale);
      }
    }

    /** The rest of the turn: reassembly, and the PAT or the time if one is complete. */
    method CollectAndTime(buf: Packet, head: TsHead, stale: Stale, around: Surroundings)
      requires Valid() && Synced(buf) && head == HeadOf(buf)
      modifies Repr
      ensures Valid() && fresh(Repr - old(Repr))
      ensures Current() == Gather(old(Current()), Feed(buf, around))
    {
      hide AdaptOf, PayloadStart, StepEnabled, EntriesValid, TakenFrom, Pid, LossLog.Valid, LossLog.Contents;
      var done := table.Collect(buf, head, stale.head, around);
      Repr := Repr + table.Repr;
      if done {
        var slot := table.slots[head.pid];
        assert slot.State() == table.States()[head.pid];
        TakeSection(head.pid, Memory(if slot.payload == null then [] else slot.payload[..], around.behindBuffer), stale.tot);
      }
    }
  }

  /**
   The whole analysis of a file: the loop over its packets leaves the state that the state
   machine reaches.  `stale` stands for the uninitialised structures.
   */
  method Analyze(input: seq<Feed>, stale: Stale) returns (a: Analyzer)
    ensures a.Valid() && fresh(a.Repr)
    ensures a.Current() == After(input, |input|)
  {
    hide StepState, Start;
    a := new Analyzer();
    var packetCount := |input|;
    var pCnt := 0;
    while pCnt < packetCount
      invariant pCnt <= packetCount
      invariant a.Valid() && fresh(a.Repr)
      invariant a.Current() == After(input, pCnt)
    {
      a.Process(input[pCnt].packet, pCnt, packetCount, stale, input[pCnt].around);
      pCnt := pCnt + 1;
    }
  }
}
