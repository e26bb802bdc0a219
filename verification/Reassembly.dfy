/**
 What reassembly achieves over whole runs of one PID's packets.
 */
module Reassembly {
  import opened Bytes
  import opened BitReader
  import opened Header
  import opened SectionAssembly
  import Crc32

  /** One call of `st_packet`: a packet and what lies around it in memory. */
  datatype Feed = Feed(packet: Packet, around: Surroundings)

  function Advance(s: Slot, f: Feed): (s': Slot)
    requires SlotValid(s)
    ensures SlotValid(s')
  {
    StepKeepsValid(s, f.packet, f.around);
    StepSlot(s, f.packet, f.around).0
  }

  /** The slot after a sequence of calls. */
  function AdvanceAll(s: Slot, fs: seq<Feed>): (s': Slot)
    requires SlotValid(s)
    ensures SlotValid(s')
    decreases |fs|
  {
    if fs == [] then s else Advance(AdvanceAll(s, fs[..|fs| - 1]), fs[|fs| - 1])
  }

  predicate Copyable(p: Packet) {
    PayloadStart(p) <= PACKET_SIZE
  }

  /** The contributions of the packets accepted since the last unit-start packet. */
  function Collected(enable: bool, fs: seq<Feed>): seq<byte> {
    if fs == [] then []
    else
      var before, p := fs[..|fs| - 1], fs[|fs| - 1].packet;
      if UnitStart(p) then (if Copyable(p) then Contribution(p) else [])
      else if AdvanceAll(Idle(enable), before).loading && Copyable(p) then Collected(enable, before) + Contribution(p)
      else Collected(enable, before)
  }

  lemma CopiedPrefix(s: Slot, bytes: seq<byte>)
    requires s.copied + |bytes| <= |s.payload|
    ensures |Copied(s, bytes).payload| == |s.payload|
    ensures Copied(s, bytes).payload[..s.copied + |bytes|] == s.payload[..s.copied] + bytes
  {}

  lemma ClosedKeeps(s: Slot, pid: nat, around: Surroundings)
    ensures Closed(s, pid, around).0.payload == s.payload
    ensures Closed(s, pid, around).0.copied == s.copied
    ensures Closed(s, pid, around).0.size == s.size
    ensures Closed(s, pid, around).0.enable == s.enable
    ensures Closed(s, pid, around).0.loading == (s.copied <= s.size)
    ensures Closed(s, pid, around).1 == if s.copied > s.size >= 7 then 1 else 0
    ensures s.copied > s.size >= 7 && pid != 0 ==> Closed(s, pid, around).0.crcCheck == Verdict(s, around)
  {}

  /** One step's effect on the gathered bytes. */
  lemma StepGathers(s: Slot, p: Packet, around: Surroundings)
    requires SlotValid(s) && s.copied <= |s.payload|
    ensures var s', bytes := StepSlot(s, p, around).0,
        if UnitStart(p) then (if Copyable(p) then Contribution(p) else [])
        else if s.loading && Copyable(p) then s.payload[..s.copied] + Contribution(p)
        else s.payload[..s.copied];
      && s'.enable == s.enable
      && s'.copied == |bytes| <= |s'.payload|
      && s'.payload[..s'.copied] == bytes
  {
    hide Verdict, Pid, PayloadStart, UnitStart, DeclaredLength, Closed;
    if Copyable(p) {
      if UnitStart(p) {
        var o := Opened(s, p, around);
        CopiedPrefix(o, Contribution(p));
        ClosedKeeps(Copied(o, Contribution(p)), Pid(p), around);
      } else if s.loading {
        CopiedPrefix(s, Contribution(p));
        ClosedKeeps(Copied(s, Contribution(p)), Pid(p), around);
      }
    }
  }

  /**
   In every reachable state the buffer starts with exactly the contributions of the packets
   accepted since the last unit-start packet.
   */
  lemma {:induction false} BufferHoldsContributions(enable: bool, fs: seq<Feed>)
    ensures var s := AdvanceAll(Idle(enable), fs);
      && s.enable == enable
      && s.copied == |Collected(enable, fs)| <= |s.payload|
      && s.payload[..s.copied] == Collected(enable, fs)
    decreases |fs|
  {
    hide Verdict, Pid, PayloadStart, UnitStart, DeclaredLength, Closed, Copied;
    if fs != [] {
      var n := |fs| - 1;
      var s, p, around := AdvanceAll(Idle(enable), fs[..n]), fs[n].packet, fs[n].around;
      BufferHoldsContributions(enable, fs[..n]);
      StepGathers(s, p, around);
    }
  }

  // ---------------------------------------------------------------- delivering a section

  /** All contributions of a sequence of packets, in order. */
  function Stream(fs: seq<Feed>): seq<byte>
    requires forall i :: 0 <= i < |fs| ==> Copyable(fs[i].packet)
  {
    if fs == [] then []
    else
      assert Copyable(fs[|fs| - 1].packet);
      Stream(fs[..|fs| - 1]) + Contribution(fs[|fs| - 1].packet)
  }

  /** A unit-start packet followed by packets that continue it, all with a payload inside the packet. */
  predicate Transmission(fs: seq<Feed>) {
    && fs != []
    && UnitStart(fs[0].packet)
    && (forall i :: 1 <= i < |fs| ==> !UnitStart(fs[i].packet))
    && (forall i :: 0 <= i < |fs| ==> Copyable(fs[i].packet))
  }

  /** The buffer size that the first packet announces. */
  function Announced(fs: seq<Feed>): nat
    requires fs != []
  {
    DeclaredLength(fs[0].packet, fs[0].around) + 3
  }

  ghost predicate Gathered(s: Slot, size: nat, data: seq<byte>) {
    s.loading == (|data| <= size) && s.size == size && s.copied == |data| <= |s.payload| && s.payload[..|data|] == data
  }

  lemma StreamPrefix(fs: seq<Feed>)
    requires Transmission(fs) && |fs| > 1
    ensures Transmission(fs[..|fs| - 1]) && Announced(fs[..|fs| - 1]) == Announced(fs)
    ensures |fs| > 2 ==> |Stream(fs[..|fs| - 2])| <= |Stream(fs[..|fs| - 1])|
    ensures |fs| > 2 ==> fs[..|fs| - 1][..|fs| - 2] == fs[..|fs| - 2]
  {
    if |fs| > 2 {
      assert fs[..|fs| - 1][..|fs| - 2] == fs[..|fs| - 2];
    }
  }

  lemma FirstGathers(s: Slot, f: Feed)
    requires SlotValid(s) && UnitStart(f.packet) && Copyable(f.packet)
    ensures Gathered(Advance(s, f), DeclaredLength(f.packet, f.around) + 3, Contribution(f.packet))
  {
    hide Verdict, Pid, PayloadStart, UnitStart, DeclaredLength, Closed;
    var o, bytes := Opened(s, f.packet, f.around), Contribution(f.packet);
    assert |bytes| <= SLACK;
    CopiedPrefix(o, bytes);
    ClosedKeeps(Copied(o, bytes), Pid(f.packet), f.around);
  }

  lemma NextGathers(s: Slot, f: Feed, size: nat, data: seq<byte>)
    requires SlotValid(s) && !UnitStart(f.packet) && Copyable(f.packet)
    requires Gathered(s, size, data) && |data| <= size
    ensures Gathered(Advance(s, f), size, data + Contribution(f.packet))
  {
    hide Verdict, Pid, PayloadStart, UnitStart, DeclaredLength, Closed;
    CopiedPrefix(s, Contribution(f.packet));
    ClosedKeeps(Copied(s, Contribution(f.packet)), Pid(f.packet), f.around);
  }

  /** Whatever the slot held before, a transmission that has not passed its announced size is gathered in full. */
  lemma {:induction false} Gathering(s: Slot, fs: seq<Feed>)
    requires SlotValid(s) && Transmission(fs)
    requires |fs| > 1 ==> |Stream(fs[..|fs| - 1])| <= Announced(fs)
    ensures Gathered(AdvanceAll(s, fs), Announced(fs), Stream(fs))
    decreases |fs|
  {
    hide Verdict, Pid, PayloadStart, UnitStart, DeclaredLength, Closed, Copied;
    var n := |fs| - 1;
    if n == 0 {
      FirstGathers(s, fs[0]);
      assert AdvanceAll(s, fs[..0]) == s;
      assert Stream(fs) == Contribution(fs[0].packet);
    } else {
      StreamPrefix(fs);
      Gathering(s, fs[..n]);
      NextGathers(AdvanceAll(s, fs[..n]), fs[n], Announced(fs), Stream(fs[..n]));
    }
  }

  /** The verdict on a gathered section whose header arrived in one piece. */
  lemma GatheredVerdict(s: Slot, size: nat, data: seq<byte>, length: nat, around: Surroundings)
    requires Gathered(s, size, data) && |data| > size == length + 3 && length >= 1
    requires length == Join(data[1] % 16, data[2])
    ensures Verdict(s, around) == if Crc32.Remainder(data[..size]) == Crc32.Zeros(32) then 1 else 0
  {
    hide Crc32.Remainder;
    var mem := Memory(s.payload, around.behindBuffer);
    assert s.payload[1] == s.payload[..|data|][1] && s.payload[2] == s.payload[..|data|][2];
    assert SectionLength(mem) == length;
    assert mem.Slice(0, size) == s.payload[..size] == data[..size];
  }

  lemma SameVerdict(s: Slot, s': Slot, around: Surroundings)
    requires s.payload == s'.payload && s.size == s'.size
    ensures Verdict(s, around) == Verdict(s', around)
  {}

  /** What an accepted packet makes `st_packet` return. */
  lemma StepReports(s: Slot, f: Feed)
    requires SlotValid(s) && Copyable(f.packet) && (UnitStart(f.packet) || s.loading)
    ensures var (s', r) := StepSlot(s, f.packet, f.around);
      && (r == 1 <==> s'.copied > s'.size >= 7)
      && (r == 1 && Pid(f.packet) != 0 ==> s'.crcCheck == Verdict(s', f.around))
  {
    hide Pid, PayloadStart, UnitStart, DeclaredLength, Closed, Verdict;
    var c := if UnitStart(f.packet) then Copied(Opened(s, f.packet, f.around), Contribution(f.packet))
             else Copied(s, Contribution(f.packet));
    ClosedKeeps(c, Pid(f.packet), f.around);
    SameVerdict(c, Closed(c, Pid(f.packet), f.around).0, f.around);
  }

  lemma {:induction false} StreamStarts(fs: seq<Feed>)
    requires Transmission(fs)
    ensures Contribution(fs[0].packet) <= Stream(fs)
    decreases |fs|
  {
    hide Pid, PayloadStart, UnitStart;
    if |fs| == 1 {
      assert Stream(fs[..0]) == [];
    } else {
      StreamStarts(fs[..|fs| - 1]);
    }
  }

  /** The announced length is the section's own length field if that arrived in the first packet. */
  lemma HeaderInOnePiece(fs: seq<Feed>)
    requires Transmission(fs) && |Contribution(fs[0].packet)| >= 3
    ensures |Stream(fs)| >= 3
    ensures Announced(fs) == Join(Stream(fs)[1] % 16, Stream(fs)[2]) + 3
  {
    StreamStarts(fs);
    var c := Contribution(fs[0].packet);
    assert Stream(fs)[1] == c[1] && Stream(fs)[2] == c[2];
  }

  /**
   A transmission is reported by the packet that takes it past the announced size - reaching
   it is not enough - and then the buffer starts with the whole section and, except on PID 0,
   the recorded verdict is the CRC of exactly those bytes.
   */
  lemma {:induction false} SectionDelivered(s: Slot, fs: seq<Feed>)
    requires SlotValid(s) && Transmission(fs) && |Contribution(fs[0].packet)| >= 3
    requires |fs| > 1 ==> |Stream(fs[..|fs| - 1])| <= Announced(fs)
    ensures var size, data, last := Announced(fs), Stream(fs), fs[|fs| - 1];
      var (after, r) := StepSlot(AdvanceAll(s, fs[..|fs| - 1]), last.packet, last.around);
      && (r == 1 <==> |data| > size >= 7)
      && after.loading == (|data| <= size)
      && (|data| > size ==> size <= |after.payload| && after.payload[..size] == data[..size])
      && (r == 1 && Pid(last.packet) != 0 ==>
            after.crcCheck == if Crc32.Remainder(data[..size]) == Crc32.Zeros(32) then 1 else 0)
  {
    hide Verdict, Pid, PayloadStart, UnitStart, DeclaredLength, Crc32.Remainder, Stream, StepSlot;
    var n := |fs| - 1;
    var before, last, data, size := AdvanceAll(s, fs[..n]), fs[n], Stream(fs), Announced(fs);
    Gathering(s, fs);
    HeaderInOnePiece(fs);
    if n > 0 {
      StreamPrefix(fs);
      Gathering(s, fs[..n]);
    }
    StepReports(before, last);
    var after := AdvanceAll(s, fs);
    if |data| > size {
      assert after.payload[..size] == after.payload[..|data|][..size];
      if size >= 7 {
        GatheredVerdict(after, size, data, size - 3, last.around);
      }
    }
  }
}
