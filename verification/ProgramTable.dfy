/**
 The program table of a run is the first one that its packets deliver.
 */
module ProgramTable {
  import opened Bytes
  import opened Header
  import opened PidIndependence
  import opened SectionAssembly
  import opened Reassembly
  import opened Deliveries
  import opened Sections
  import opened Analysis
  import opened Accounting
  import Pat

  /** The first of the completed sections. */
  function FirstOf(sections: seq<Memory>): FirstPat {
    if sections == [] then NoPat else Took(Pat.PatAt(sections[0]))
  }

  /** Until a section is complete the slot follows its packets; then it is disabled for good. */
  ghost predicate Follows(pat: FirstPat, s: Slot, fs: seq<Feed>) {
    && pat == FirstOf(Delivered(fs))
    && if Delivered(fs) == [] then s == AdvanceAll(Idle(true), fs) else !s.enable
  }

  /** A packet on the table's PID that is looked into. */
  lemma FollowsStep(pat: FirstPat, s: Slot, fs: seq<Feed>, f: Feed)
    requires SlotValid(s) && Follows(pat, s, fs) && Pid(f.packet) == PAT_PID && Eligible(f.packet)
    ensures Follows(if CarriesPat(s, f) then Took(PatCarried(s, f)) else pat, StepEnabled(s, f).0, fs + [f])
  {
    hide Pid, Eligible, StepSlot, Pat.PatAt, Completes, Buffer, Delivered, SlotValid, Idle;
    assert (fs + [f])[..|fs|] == fs;
    DeliveriesSnoc(fs, f);
    SlotFollows(true, fs);
    SlotFollows(true, fs + [f]);
  }

  /** Other packets change neither. */
  lemma OthersCarryNoPat(s: Slot, f: Feed)
    requires SlotValid(s) && (Pid(f.packet) != PAT_PID || !Eligible(f.packet))
    ensures !CarriesPat(s, f)
    ensures !Eligible(f.packet) ==> StepEnabled(s, f).0 == s
  {
    hide Pid, Eligible, StepSlot, SlotValid;
  }

  lemma StepPat(st: State, f: Feed, i: nat, n: nat)
    requires i < n
    ensures var s := st.slots[Pid(f.packet)];
      StepState(st, f, i, n).pat == if !st.notTs && !Bad(f) && CarriesPat(s, f) then Took(PatCarried(s, f)) else st.pat
  {
    hide Pid, CountAt, Logged, StepEnabled, CarriesTime, TimeCarried, CarriesPat, PatCarried, Gather;
    GatherChanges(Checked(st, f.packet, PercentOf(i, n)), f);
  }

  lemma {:induction false} TurnFollows(input: seq<Feed>, k: nat)
    requires 0 < k <= |input|
    requires Follows(After(input, k - 1).pat, After(input, k - 1).slots[PAT_PID], LookedInto(input, k - 1, PAT_PID))
    ensures Follows(After(input, k).pat, After(input, k).slots[PAT_PID], LookedInto(input, k, PAT_PID))
  {
    hide StepState, Bad, Pid, Eligible, LookedInto, Follows, CarriesPat, PatCarried, StepEnabled, SlotValid;
    var st, f, fs := After(input, k - 1), input[k - 1], LookedInto(input, k - 1, PAT_PID);
    LookedIntoStep(input, k, PAT_PID);
    StepPat(st, f, k - 1, |input|);
    StepSlots(st, f, k - 1, |input|);
    assert fs + [] == fs;
    if Accepts(input, k - 1) {
      if Pid(f.packet) == PAT_PID && Eligible(f.packet) {
        FollowsStep(st.pat, st.slots[PAT_PID], fs, f);
      } else {
        OthersCarryNoPat(st.slots[Pid(f.packet)], f);
      }
    }
  }

  lemma NothingFollows(input: seq<Feed>)
    ensures Follows(After(input, 0).pat, After(input, 0).slots[PAT_PID], LookedInto(input, 0, PAT_PID))
  {}

  lemma {:induction false} RunFollows(input: seq<Feed>, k: nat)
    requires k <= |input|
    ensures Follows(After(input, k).pat, After(input, k).slots[PAT_PID], LookedInto(input, k, PAT_PID))
    decreases k
  {
    hide Follows, After, LookedInto;
    if k == 0 {
      NothingFollows(input);
    } else {
      RunFollows(input, k - 1);
      TurnFollows(input, k);
    }
  }

  /** In every state of every run the program table is the first one delivered on its PID; later ones are not looked at. */
  lemma {:induction false} FirstPatIsTaken(input: seq<Feed>, k: nat)
    requires k <= |input|
    ensures After(input, k).pat == FirstOf(Delivered(LookedInto(input, k, 0)))
  {
    hide After, LookedInto, Delivered, FirstOf;
    RunFollows(input, k);
  }

  lemma EncodedLength(h: SectionHeader, reserved1: nat, reserved2: nat, programs: seq<Pat.Association>)
    requires ValidHeader(h) && reserved1 < 8 && reserved2 < 4 && Pat.ValidAssociations(programs)
    ensures |Pat.EncodePat(h, reserved1, reserved2, programs)| == 8 + 4 * |programs|
  {}

  /**
   A table sent in any packets, the first on its PID, is read - all its programs, once and in
   order - exactly if the transmission passes the section's size; if it only reaches it, there is
   still no table.
   */
  lemma {:induction false} ProgramsAreRead(input: seq<Feed>, k: nat, earlier: seq<Feed>, fs: seq<Feed>,
      h: SectionHeader, reserved1: nat, reserved2: nat, programs: seq<Pat.Association>)
    requires k <= |input| && LookedInto(input, k, 0) == earlier + fs && Delivered(earlier) == []
    requires ValidHeader(h) && reserved1 < 8 && reserved2 < 4 && Pat.ValidAssociations(programs)
    requires h.length == 5 + 4 * |programs| + 4
    requires Transmission(fs) && Announced(fs) == h.length + 3
    requires Pat.EncodePat(h, reserved1, reserved2, programs) <= Stream(fs)
    ensures After(input, k).pat ==
      if |Stream(fs)| > h.length + 3 then Took(Pat.TsPat(h, |programs|, Pat.DecodedAll(programs))) else NoPat
  {
    hide After, LookedInto, Delivered, Announced, Stream, Pat.EncodePat, Pat.PatAt, Copyable, UnitStart;
    FirstPatIsTaken(input, k);
    DeliveredOnce(earlier, fs);
    if |Stream(fs)| > h.length + 3 {
      var mem := Delivered(earlier + fs)[0];
      EncodedLength(h, reserved1, reserved2, programs);
      PrefixStored(mem, h.length + 4, Stream(fs), Pat.EncodePat(h, reserved1, reserved2, programs));
      Pat.PatRoundTrip(mem, h, reserved1, reserved2, programs);
    }
  }
}
