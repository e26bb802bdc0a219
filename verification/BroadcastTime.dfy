/**
 From packets to the printed times: the times of a run are those of the sections that are
 delivered on the time offset table's PID, and a transmitted table is among them exactly if it
 passes its size.
 */
module BroadcastTime {
  import opened Bytes
  import opened Header
  import opened SectionAssembly
  import opened Reassembly
  import opened Deliveries
  import opened Sections
  import opened Calendar
  import opened DropLists
  import opened Tot
  import opened Analysis
  import opened Accounting
  import opened Views

  // ---------------------------------------------------------------- whose times they are

  /** The times of the delivered sections that are taken for a time, in order. */
  function TimesIn(sections: seq<Memory>): seq<Tm> {
    if sections == [] then []
    else
      var n := |sections| - 1;
      TimesIn(sections[..n]) + if ValidTot(sections[n]) then [TimeAt(sections[n].From(3))] else []
  }

  /** On the enabled slot of the table's PID a packet brings a time exactly if it completes a valid table. */
  lemma CompletionIsTime(s: Slot, fs: seq<Feed>, f: Feed)
    requires s == AdvanceAll(Idle(true), fs) && Pid(f.packet) == TOT_PID && Eligible(f.packet)
    ensures CarriesTime(s, f) <==> Completes(fs + [f]) && ValidTot(Memory(Buffer(fs + [f]), f.around.behindBuffer))
    ensures CarriesTime(s, f) ==> TimeCarried(s, f) == TimeAt(Memory(Buffer(fs + [f]), f.around.behindBuffer).From(3))
  {
    hide Pid, Eligible, StepSlot, ValidTot, TimeAt, Completes, Buffer, AdvanceAll, SlotValid;
    assert (fs + [f])[..|fs|] == fs;
    SlotFollows(true, fs);
    SlotFollows(true, fs + [f]);
  }

  /** Other packets bring none. */
  lemma OthersCarryNoTime(s: Slot, f: Feed)
    requires SlotValid(s) && (Pid(f.packet) != TOT_PID || !Eligible(f.packet))
    ensures !CarriesTime(s, f)
  {
    hide Pid, Eligible, StepSlot, SlotValid;
  }

  lemma TimesInSnoc(ds: seq<Memory>, d: Memory)
    ensures TimesIn(ds + [d]) == TimesIn(ds) + if ValidTot(d) then [TimeAt(d.From(3))] else []
  {
    assert (ds + [d])[..|ds|] == ds;
  }

  lemma TotSlot(input: seq<Feed>, k: nat)
    requires k <= |input|
    ensures After(input, k).slots[TOT_PID] == AdvanceAll(Idle(true), LookedInto(input, k, TOT_PID))
  {
    hide After, Own, EligibleOf, AdvanceAll;
    TotBuffer(input, k);
  }

  /** One more packet of the file delivers what the loop's turn brings. */
  lemma TurnDelivers(input: seq<Feed>, k: nat)
    requires 0 < k <= |input|
    ensures TimesIn(Delivered(LookedInto(input, k, TOT_PID)))
         == TimesIn(Delivered(LookedInto(input, k - 1, TOT_PID))) + TimesAt(input, k - 1)
  {
    hide After, Accepts, Pid, Eligible, LookedInto, CarriesTime, TimeCarried, ValidTot, TimeAt,
         Completes, Buffer, Delivered, TimesIn;
    var f, fs, s := input[k - 1], LookedInto(input, k - 1, TOT_PID), After(input, k - 1).slots[Pid(input[k - 1].packet)];
    LookedIntoStep(input, k, TOT_PID);
    assert fs + [] == fs && TimesIn(Delivered(fs)) + [] == TimesIn(Delivered(fs));
    if Pid(f.packet) == TOT_PID && Eligible(f.packet) {
      TotSlot(input, k - 1);
      CompletionIsTime(s, fs, f);
      DeliveriesSnoc(fs, f);
      TimesInSnoc(Delivered(fs), Memory(Buffer(fs + [f]), f.around.behindBuffer));
      assert Delivered(fs) + [] == Delivered(fs);
    } else {
      OthersCarryNoTime(s, f);
    }
  }

  lemma NoTimes(input: seq<Feed>)
    ensures TimesIn(Delivered(LookedInto(input, 0, TOT_PID))) == []
  {}

  /** The times of every run are those of the tables that its packets deliver, in order. */
  lemma {:induction false} TimesAreDelivered(input: seq<Feed>, k: nat)
    requires k <= |input|
    ensures Times(input, k) == TimesIn(Delivered(LookedInto(input, k, 0x14)))
    decreases k
  {
    hide TimesAt, LookedInto, Delivered, TimesIn;
    if k == 0 {
      NoTimes(input);
    } else {
      TimesAreDelivered(input, k - 1);
      TurnDelivers(input, k);
    }
  }

  // ---------------------------------------------------------------- a transmitted table

  /** The packets carry a section that starts with these bytes. */
  ghost predicate Carries(fs: seq<Feed>, t: TimeTable) {
    ValidTable(t) && Transmission(fs) && EncodeTot(t) <= Stream(fs)
  }

  lemma PrefixLength(data: seq<byte>, t: TimeTable)
    requires ValidTable(t) && EncodeTot(t) <= data
    ensures |data| >= 3 && Join(data[1] % 16, data[2]) == t.length
  {
    hide Packed;
    var e := EncodeTot(t);
    assert data[1] == e[1] && data[2] == e[2];
    UnpackLength(t.syntax, t.reserved, t.length);
  }

  /** If three bytes arrive in the first packet the announced size is the table's own. */
  lemma AnnouncesLength(fs: seq<Feed>, t: TimeTable)
    requires Carries(fs, t) && |Contribution(fs[0].packet)| >= 3
    ensures Announced(fs) == t.length + 3
  {
    hide Announced, Stream, Contribution, Copyable, UnitStart, Packed, PayloadStart, EncodeTot;
    HeaderInOnePiece(fs);
    PrefixLength(Stream(fs), t);
  }

  /**
   A section sent in any packets, behind whatever came before on its PID, adds its time to the
   times exactly if the transmission passes the announced size, that is at least seven, and it
   is a time offset table of length at most 1021; any other section adds nothing.
   */
  lemma {:induction false} TransmittedTable(earlier: seq<Feed>, fs: seq<Feed>, t: TimeTable)
    requires Carries(fs, t)
    ensures TimesIn(Delivered(earlier + fs)) == TimesIn(Delivered(earlier))
      + if |Stream(fs)| > Announced(fs) >= 7 && IsTimeOffset(t) then [TimeOfTable(t)] else []
    ensures t.tableId != 0x73 || t.syntax != 0 || t.length > 1021 ==>
      TimesIn(Delivered(earlier + fs)) == TimesIn(Delivered(earlier))
  {
    hide Announced, Stream, EncodeTot, Delivered, TimesIn, ValidTot, TimeAt, MjdToDate, Copyable, UnitStart, ValidTable;
    var before, after := Delivered(earlier), Delivered(earlier + fs);
    DeliveredOnce(earlier, fs);
    assert TimesIn(before) + [] == TimesIn(before);
    if |Stream(fs)| > Announced(fs) >= 7 {
      var d := after[|before|];
      assert after == before + [d];
      PrefixStored(d, Announced(fs) + 1, Stream(fs), EncodeTot(t));
      TotRoundTrip(d, t);
      TimesInSnoc(before, d);
    }
  }

  /**
   In any file, once a transmitted table's packets have been processed, its time is the current
   key and the last time - if the transmission passed its size; if it only reached it, or if it
   is another table, the times are those of before.
   */
  lemma {:induction false} TimeIsRead(input: seq<Feed>, k: nat, earlier: seq<Feed>, fs: seq<Feed>, t: TimeTable)
    requires k <= |input| && LookedInto(input, k, 0x14) == earlier + fs && Carries(fs, t)
    ensures var tm, st, before := TimeOfTable(t), After(input, k), TimesIn(Delivered(earlier));
      if |Stream(fs)| > Announced(fs) >= 7 && IsTimeOffset(t) then
        st.currentTot == Clock(tm) && st.lastTot == tm && Times(input, k) == before + [tm]
      else
        st.currentTot == KeyAfter(before) && Times(input, k) == before
  {
    hide After, LookedInto, Carries, Transmission, Announced, Stream, Delivered, TimesIn, MjdToDate, Times, IsTimeOffset;
    TimesAreDelivered(input, k);
    TransmittedTable(earlier, fs, t);
    TimesAreTracked(input, k);
    var before := TimesIn(Delivered(earlier));
    assert before + [] == before;
  }
}
