/**
 Whole packets as section 2.4.3.2 of ISO/IEC 13818-1 writes them - header, adaptation field,
 payload - and what the program takes from them.
 */
module PacketCoding {
  import opened Bytes
  import opened Header
  import opened Adaptation
  import opened AdaptationCoding
  import opened Continuity
  import opened SectionAssembly
  import opened Reassembly
  import opened Analysis

  // ---------------------------------------------------------------- the adaptation field in a packet

  /** A packet with an adaptation field behind its header. */
  ghost predicate HasAdaptation(p: Packet, h: HeadFields, f: Field) {
    && HasFields(p, h) && (h.control == 2 || h.control == 3)
    && ValidField(f) && EncodeField(f) <= p[4..]
  }

  lemma FieldLength(f: Field)
    requires ValidField(f)
    ensures |EncodeField(f)| > 0 && EncodeField(f)[0] == |EncodeField(f)| - 1
  {
    hide Body;
  }

  lemma MeaningDiscontinuity(f: Field)
    requires ValidField(f)
    ensures MeaningOfField(f).discontinuity <==> f.Full? && f.source.discontinuity
  {
    hide Body, MeaningOfExtension;
  }

  /** The field is read back, and the packet announces a discontinuity exactly if the field does. */
  lemma {:induction false} AdaptationRead(p: Packet, h: HeadFields, f: Field)
    requires HasAdaptation(p, h, f)
    ensures AdaptOf(p) == HeadOf(p).adapt == MeaningOfField(f)
    ensures Discontinuity(p) <==> f.Full? && f.source.discontinuity
    ensures p[4] == |EncodeField(f)| - 1
  {
    hide EncodeField, Fits, Parsed, ValidField, MeaningOfField, PayloadStart;
    HeadRoundTrip(p, h);
    RoundTrip(p[4..], f);
    FieldLength(f);
    assert p[4] == p[4..][0] == EncodeField(f)[0];
    MeaningDiscontinuity(f);
  }

  /** A packet without an adaptation field announces none. */
  lemma NoAdaptation(p: Packet, h: HeadFields)
    requires HasFields(p, h) && h.control != 2 && h.control != 3
    ensures AdaptOf(p) == ZERO && !Discontinuity(p)
  {
    hide Fits, Parsed, PayloadStart;
    HeadRoundTrip(p, h);
  }

  // ---------------------------------------------------------------- what a packet contributes

  /** A packet without an adaptation field contributes its payload, less one byte if it starts a unit. */
  lemma {:induction false} PayloadContributed(p: Packet, h: HeadFields, payload: seq<byte>)
    requires ValidFields(h) && h.control == 1 && p == EncodeHead(h) + payload
    ensures Copyable(p) && Contribution(p) == payload[h.start..]
  {
    hide EncodeHead, PayloadStart;
    assert p[..4] == EncodeHead(h);
    HeadRoundTrip(p, h);
  }

  /**
   Behind an adaptation field a packet contributes the field's last byte and then its payload, or
   just its payload if it starts a unit: the offset does not count the field's length byte.
   */
  lemma {:induction false} ShiftedPayloadContributed(p: Packet, h: HeadFields, f: Field, payload: seq<byte>)
    requires ValidFields(h) && h.control == 3 && ValidField(f)
    requires p == EncodeHead(h) + EncodeField(f) + payload
    ensures Copyable(p)
    ensures h.start == 0 ==> Contribution(p) == [EncodeField(f)[|EncodeField(f)| - 1]] + payload
    ensures h.start == 1 ==> Contribution(p) == payload
  {
    hide EncodeHead, EncodeField, PayloadStart, ValidField;
    var e := EncodeField(f);
    assert p[..4] == EncodeHead(h);
    HeadRoundTrip(p, h);
    FieldLength(f);
    assert p[4] == e[0];
    assert p[4 + |e|..] == payload;
    assert p[3 + |e|..] == [e[|e| - 1]] + payload;
  }

  /** A packet is copied from exactly if its offset, computed from the encoded fields, is at most 188. */
  lemma CopyableExactly(p: Packet, h: HeadFields)
    requires HasFields(p, h)
    ensures Copyable(p) <==> EncodedStart(h, p[4]) <= 188
  {
    hide PayloadStart;
    HeadRoundTrip(p, h);
  }

  // ---------------------------------------------------------------- which packets are looked into

  /** Packets with an error or without a payload leave slots, times and program table alone. */
  lemma {:induction false} LeftAlone(st: State, f: Feed, h: HeadFields)
    requires HasFields(f.packet, h) && (h.error == 1 || h.control == 2)
    ensures Gather(st, f) == st
  {
    hide PayloadStart, AdaptOf, StepSlot, TakenFrom, SlotValid;
    HeadRoundTrip(f.packet, h);
  }

  lemma {:induction false} SlotStep(s: Slot, f: Feed, h: HeadFields)
    requires SlotValid(s) && HasFields(f.packet, h) && h.error == 0 && h.control != 2
    ensures var (t, r) := StepSlot(s, f.packet, f.around);
      StepEnabled(s, f).0 == if !s.enable then s else if r == 1 && h.pid == 0 then t.(enable := false) else t
  {
    hide PayloadStart, AdaptOf, StepSlot, SlotValid;
    HeadRoundTrip(f.packet, h);
  }

  lemma SlotsGathered(st: State, f: Feed)
    ensures Gather(st, f).slots == st.slots[Pid(f.packet) := StepEnabled(st.slots[Pid(f.packet)], f).0]
  {
    hide Pid, StepEnabled, CarriesTime, TimeCarried, CarriesPat, PatCarried, Gather;
    GatherChanges(st, f);
  }

  /** All others are handed to the slot of their PID if it is enabled; a completed PAT disables it. */
  lemma {:induction false} HandedToSlot(st: State, f: Feed, h: HeadFields)
    requires HasFields(f.packet, h) && h.error == 0 && h.control != 2
    ensures var s := st.slots[h.pid]; var (t, r) := StepSlot(s, f.packet, f.around);
      Gather(st, f).slots == st.slots[h.pid :=
        if !s.enable then s else if r == 1 && h.pid == 0 then t.(enable := false) else t]
  {
    hide PayloadStart, AdaptOf, StepSlot, SlotValid, StepEnabled, Gather, Pid;
    HeadRoundTrip(f.packet, h);
    SlotsGathered(st, f);
    SlotStep(st.slots[h.pid], f, h);
  }

  /** At the start exactly PID 0 and PID 0x14 are enabled. */
  lemma EnabledAtStart(pid: nat)
    requires pid < 8192
    ensures Start().slots[pid].enable <==> pid == 0 || pid == 0x14
  {
    hide Fresh;
  }
}
