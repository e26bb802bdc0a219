/**
 What a PID's packets deliver, told without the slot: the sections that are reported are a
 function of the packets alone, whatever came before, and a transmission is reported once or
 never.
 */
module Deliveries {
  import opened Bytes
  import opened Header
  import opened SectionAssembly
  import opened Reassembly
  import Crc32

  // ---------------------------------------------------------------- specification

  /** The buffer size announced by the last unit-start packet. */
  function Size(fs: seq<Feed>): nat {
    if fs == [] then 0
    else
      var n := |fs| - 1;
      if UnitStart(fs[n].packet) then DeclaredLength(fs[n].packet, fs[n].around) + 3 else Size(fs[..n])
  }

  function Given(p: Packet): seq<byte> {
    if Copyable(p) then Contribution(p) else []
  }

  /** Everything contributed since the last unit-start packet. */
  function Data(fs: seq<Feed>): seq<byte> {
    if fs == [] then []
    else
      var n := |fs| - 1;
      (if UnitStart(fs[n].packet) then [] else Data(fs[..n])) + Given(fs[n].packet)
  }

  /** A section is under way: it was begun and has not yet passed its size. */
  predicate Open(fs: seq<Feed>) {
    && fs != []
    && |Data(fs)| <= Size(fs)
    && var n := |fs| - 1; ((UnitStart(fs[n].packet) && Copyable(fs[n].packet)) || Open(fs[..n]))
  }

  /** The last packet's bytes are copied. */
  predicate Taken(fs: seq<Feed>) {
    fs != [] && var n := |fs| - 1; Copyable(fs[n].packet) && (UnitStart(fs[n].packet) || Open(fs[..n]))
  }

  /** The last packet takes a section past its size. */
  predicate Completes(fs: seq<Feed>) {
    Taken(fs) && |Data(fs)| > Size(fs) >= 7
  }

  /** The buffer: what was contributed, then zeros. */
  function Buffer(fs: seq<Feed>): seq<byte> {
    Data(fs) + Zeroed(if |Data(fs)| <= Size(fs) + SLACK then Size(fs) + SLACK - |Data(fs)| else 0)
  }

  /** The completed buffers, each with the memory behind it, in order. */
  function Delivered(fs: seq<Feed>): seq<Memory> {
    if fs == [] then []
    else
      var n := |fs| - 1;
      Delivered(fs[..n]) + if Completes(fs) then [Memory(Buffer(fs), fs[n].around.behindBuffer)] else []
  }

  lemma DeliveriesSnoc(fs: seq<Feed>, f: Feed)
    ensures Delivered(fs + [f])
         == Delivered(fs) + if Completes(fs + [f]) then [Memory(Buffer(fs + [f]), f.around.behindBuffer)] else []
  {
    hide Completes, Buffer;
    assert (fs + [f])[..|fs|] == fs;
  }

  // ---------------------------------------------------------------- the slot does just that

  lemma ZeroedSplit(a: nat, b: nat)
    requires b <= a
    ensures Zeroed(a)[b..] == Zeroed(a - b)
  {}

  /** Copying behind what is there leaves what is there, the new bytes, and fewer zeros. */
  lemma CopyBehind(s: Slot, data: seq<byte>, zeros: nat, bytes: seq<byte>)
    requires s.payload == data + Zeroed(zeros) && s.copied == |data| && |bytes| <= zeros
    ensures Copied(s, bytes).payload == (data + bytes) + Zeroed(zeros - |bytes|)
  {
    ZeroedSplit(zeros, |bytes|);
    assert s.payload[..s.copied] == data;
    assert s.payload[s.copied + |bytes|..] == Zeroed(zeros)[|bytes|..];
  }

  /** The slot holds the section that is under way. */
  ghost predicate Holds(s: Slot, fs: seq<Feed>) {
    s.size == Size(fs) && s.copied == |Data(fs)| <= Size(fs) + SLACK && s.payload == Buffer(fs)
  }

  lemma CopiedFields(s: Slot, bytes: seq<byte>)
    requires s.copied + |bytes| <= |s.payload|
    ensures var t := Copied(s, bytes); t.size == s.size && t.copied == s.copied + |bytes| && t.enable == s.enable
  {}

  /** A packet that is taken, on a slot that holds what came before. */
  lemma TakenStep(s: Slot, fs: seq<Feed>)
    requires SlotValid(s) && Taken(fs)
    requires var n := |fs| - 1; !UnitStart(fs[n].packet) ==> s.loading && |Data(fs[..n])| <= Size(fs[..n]) && Holds(s, fs[..n])
    ensures var n := |fs| - 1; var (t, r) := StepSlot(s, fs[n].packet, fs[n].around);
      && Holds(t, fs) && t.enable == s.enable && t.loading == (|Data(fs)| <= Size(fs))
      && (r == 1 <==> Completes(fs))
      && (r == 1 && Pid(fs[n].packet) != 0 ==> t.crcCheck == Flag(Crc32.Passes(Memory(Buffer(fs), fs[n].around.behindBuffer))))
  {
    hide Pid, UnitStart, PayloadStart, DeclaredLength, Closed, Crc32.Passes, Open, Zeroed, Copied;
    var n := |fs| - 1;
    var p, around := fs[n].packet, fs[n].around;
    var o := if UnitStart(p) then Opened(s, p, around) else s;
    var before: seq<byte> := if UnitStart(p) then [] else Data(fs[..n]);
    assert Data(fs) == before + Contribution(p);
    assert o.size == Size(fs) && o.copied == |before| <= o.size;
    assert o.payload == before + Zeroed(o.size + SLACK - |before|) by {
      assert [] + Zeroed(o.size + SLACK) == Zeroed(o.size + SLACK);
    }
    CopyBehind(o, before, o.size + SLACK - |before|, Contribution(p));
    CopiedFields(o, Contribution(p));
    ClosedKeeps(Copied(o, Contribution(p)), Pid(p), around);
  }

  /** A packet that is not taken reports nothing, and leaves the slot ready exactly if it was. */
  lemma UntakenStep(s: Slot, fs: seq<Feed>)
    requires SlotValid(s) && fs != [] && !Taken(fs)
    requires var n := |fs| - 1; s.loading == Open(fs[..n]) && (s.loading ==> |Data(fs[..n])| <= Size(fs[..n]) && Holds(s, fs[..n]))
    ensures var n := |fs| - 1; var (t, r) := StepSlot(s, fs[n].packet, fs[n].around);
      && r == 0 && t.enable == s.enable && t.loading == s.loading == Open(fs)
      && (t.loading ==> Holds(t, fs))
  {
    hide Pid, UnitStart, PayloadStart, DeclaredLength, Closed, Copied;
    var n := |fs| - 1;
    assert [] + Zeroed(Size(fs) + SLACK) == Zeroed(Size(fs) + SLACK);
    assert Data(fs[..n]) + [] == Data(fs[..n]);
  }

  /**
   In every reachable state the slot is loading exactly if a section is under way and then
   holds it; a call reports exactly if its packet completes a section, and then the buffer is
   that section and, except on PID 0, the verdict is the CRC's.
   */
  lemma {:induction false} SlotFollows(enable: bool, fs: seq<Feed>)
    ensures var s := AdvanceAll(Idle(enable), fs);
      && s.enable == enable && s.loading == Open(fs)
      && (Open(fs) ==> |Data(fs)| <= Size(fs) && Holds(s, fs))
    ensures fs != [] ==>
      var n := |fs| - 1; var (t, r) := StepSlot(AdvanceAll(Idle(enable), fs[..n]), fs[n].packet, fs[n].around);
      && (r == 1 <==> Completes(fs))
      && (r == 1 ==> t.payload == Buffer(fs))
      && (r == 1 && Pid(fs[n].packet) != 0 ==> t.crcCheck == Flag(Crc32.Passes(Memory(Buffer(fs), fs[n].around.behindBuffer))))
    decreases |fs|
  {
    hide Pid, UnitStart, PayloadStart, StepSlot, SlotValid, Crc32.Passes, Buffer, Data, Size;
    if fs != [] {
      var n := |fs| - 1;
      SlotFollows(enable, fs[..n]);
      if Taken(fs) {
        TakenStep(AdvanceAll(Idle(enable), fs[..n]), fs);
      } else {
        UntakenStep(AdvanceAll(Idle(enable), fs[..n]), fs);
      }
    }
  }

  // ---------------------------------------------------------------- transmissions, in a history

  lemma AppendLast(earlier: seq<Feed>, fs: seq<Feed>)
    requires fs != []
    ensures var all := earlier + fs; all != [] && all[|all| - 1] == fs[|fs| - 1] && all[..|all| - 1] == earlier + fs[..|fs| - 1]
  {}

  lemma StreamGrows(fs: seq<Feed>)
    requires Transmission(fs) && |fs| > 1
    ensures Stream(fs) == Stream(fs[..|fs| - 1]) + Contribution(fs[|fs| - 1].packet)
  {}

  lemma StreamOne(fs: seq<Feed>)
    requires |fs| == 1 && Copyable(fs[0].packet)
    ensures Stream(fs) == Contribution(fs[0].packet) == Given(fs[0].packet)
  {
    assert Stream(fs[..0]) == [];
  }

  /** Behind any earlier packets a transmission is what its own packets say. */
  lemma {:induction false} OwnData(earlier: seq<Feed>, fs: seq<Feed>)
    requires Transmission(fs)
    ensures Data(earlier + fs) == Stream(fs) && Size(earlier + fs) == Announced(fs)
    ensures Open(earlier + fs) <==> |Stream(fs)| <= Announced(fs)
    ensures Taken(earlier + fs) <==> |fs| == 1 || |Stream(fs[..|fs| - 1])| <= Announced(fs)
    decreases |fs|
  {
    hide Stream, Contribution, UnitStart, Copyable, DeclaredLength;
    AppendLast(earlier, fs);
    if |fs| == 1 {
      StreamOne(fs);
    } else {
      StreamPrefix(fs);
      StreamGrows(fs);
      OwnData(earlier, fs[..|fs| - 1]);
    }
  }

  /**
   A transmission is reported once if it passes its announced size and that is at least seven,
   and otherwise never: a section that only reaches its size stays unreported.  The buffer
   that is reported starts with the section and one byte more.
   */
  lemma {:induction false} DeliveredOnce(earlier: seq<Feed>, fs: seq<Feed>)
    requires Transmission(fs)
    ensures var size, before, after := Announced(fs), Delivered(earlier), Delivered(earlier + fs);
      if |Stream(fs)| > size >= 7 then
        && |after| == |before| + 1 && after[..|before|] == before
        && size < |after[|before|].bytes| && after[|before|].bytes[..size + 1] == Stream(fs)[..size + 1]
      else after == before
    decreases |fs|
  {
    hide Stream, UnitStart, DeclaredLength, Data, Size, Open, Taken, Contribution, Copyable;
    AppendLast(earlier, fs);
    OwnData(earlier, fs);
    if |fs| == 1 {
      assert earlier + fs[..0] == earlier;
    } else {
      StreamPrefix(fs);
      StreamGrows(fs);
      DeliveredOnce(earlier, fs[..|fs| - 1]);
    }
  }

  // ---------------------------------------------------------------- transmissions, from any slot

  /** How many of the calls return 1. */
  function Reports(s: Slot, fs: seq<Feed>): nat
    requires SlotValid(s)
    decreases |fs|
  {
    if fs == [] then 0
    else
      var n := |fs| - 1;
      Reports(s, fs[..n]) + Flag(StepSlot(AdvanceAll(s, fs[..n]), fs[n].packet, fs[n].around).1 == 1)
  }

  lemma {:induction false} LoadingUntilPassed(s: Slot, fs: seq<Feed>)
    requires SlotValid(s) && Transmission(fs)
    ensures AdvanceAll(s, fs).loading == (|Stream(fs)| <= Announced(fs))
    decreases |fs|
  {
    hide Stream, UnitStart, DeclaredLength, Contribution, Copyable, Closed, Copied, SlotValid;
    if |fs| == 1 {
      Gathering(s, fs);
    } else {
      StreamPrefix(fs);
      StreamGrows(fs);
      LoadingUntilPassed(s, fs[..|fs| - 1]);
      if |Stream(fs[..|fs| - 1])| <= Announced(fs) {
        Gathering(s, fs);
      }
    }
  }

  lemma NotLoading(s: Slot, f: Feed)
    requires SlotValid(s) && !s.loading && !UnitStart(f.packet)
    ensures StepSlot(s, f.packet, f.around) == (s, 0)
  {
    hide SlotValid, UnitStart;
  }

  /** Whatever the slot held, the calls for a transmission return 1 once or never, and when. */
  lemma {:induction false} ReportedOnce(s: Slot, fs: seq<Feed>)
    requires SlotValid(s) && Transmission(fs)
    ensures Reports(s, fs) == Flag(|Stream(fs)| > Announced(fs) >= 7)
    decreases |fs|
  {
    hide Stream, UnitStart, DeclaredLength, Contribution, Copyable, Closed, Copied, SlotValid, Announced, StepSlot;
    var n := |fs| - 1;
    if n == 0 {
      Gathering(s, fs);
      assert AdvanceAll(s, fs[..0]) == s;
      StepReports(s, fs[0]);
    } else {
      StreamPrefix(fs);
      StreamGrows(fs);
      ReportedOnce(s, fs[..n]);
      LoadingUntilPassed(s, fs[..n]);
      if |Stream(fs[..n])| <= Announced(fs) {
        Gathering(s, fs);
        StepReports(AdvanceAll(s, fs[..n]), fs[n]);
      } else {
        NotLoading(AdvanceAll(s, fs[..n]), fs[n]);
      }
    }
  }

  /** Over a PID's whole history the calls that return 1 are the deliveries. */
  lemma {:induction false} ReportsAreDeliveries(enable: bool, fs: seq<Feed>)
    ensures Reports(Idle(enable), fs) == |Delivered(fs)|
    decreases |fs|
  {
    hide StepSlot, Completes, SlotValid, Idle, Buffer;
    if fs != [] {
      SlotFollows(enable, fs);
      ReportsAreDeliveries(enable, fs[..|fs| - 1]);
    }
  }

  // ---------------------------------------------------------------- corrupted transmissions

  /** Once a transmission has passed its size, and to its end, the recorded verdict is the CRC of its section. */
  lemma {:induction false} VerdictStays(s: Slot, fs: seq<Feed>)
    requires SlotValid(s) && Transmission(fs) && |Contribution(fs[0].packet)| >= 3
    requires |Stream(fs)| > Announced(fs) >= 7 && forall i :: 0 <= i < |fs| ==> Pid(fs[i].packet) != 0
    ensures AdvanceAll(s, fs).crcCheck == Flag(Crc32.Remainder(Stream(fs)[..Announced(fs)]) == Crc32.Zeros(32))
    decreases |fs|
  {
    hide Stream, UnitStart, Pid, DeclaredLength, Contribution, Copyable, StepSlot, SlotValid, Announced, Crc32.Remainder;
    var n := |fs| - 1;
    if n > 0 {
      StreamPrefix(fs);
      StreamGrows(fs);
    }
    if n == 0 || |Stream(fs[..n])| <= Announced(fs) {
      SectionDelivered(s, fs);
    } else {
      VerdictStays(s, fs[..n]);
      LoadingUntilPassed(s, fs[..n]);
      NotLoading(AdvanceAll(s, fs[..n]), fs[n]);
      assert Stream(fs)[..Announced(fs)] == Stream(fs[..n])[..Announced(fs)];
    }
  }

  /**
   Of two transmissions of the same announced size whose sections differ, but only inside 32
   consecutive bits, at most one is recorded as correct - from any slots, on any PIDs but 0.
   */
  lemma {:induction false} CorruptedTransmission(s: Slot, fs: seq<Feed>, t: Slot, gs: seq<Feed>, k: nat)
    requires SlotValid(s) && Transmission(fs) && |Contribution(fs[0].packet)| >= 3
    requires SlotValid(t) && Transmission(gs) && |Contribution(gs[0].packet)| >= 3
    requires forall i :: 0 <= i < |fs| ==> Pid(fs[i].packet) != 0
    requires forall i :: 0 <= i < |gs| ==> Pid(gs[i].packet) != 0
    requires Announced(fs) == Announced(gs) >= 7 && |Stream(fs)| > Announced(fs) && |Stream(gs)| > Announced(gs)
    requires Crc32.SameOutside(Stream(fs)[..Announced(fs)], Stream(gs)[..Announced(fs)], k)
    requires Stream(fs)[..Announced(fs)] != Stream(gs)[..Announced(fs)]
    ensures !(AdvanceAll(s, fs).crcCheck == 1 && AdvanceAll(t, gs).crcCheck == 1)
  {
    hide Stream, UnitStart, Pid, DeclaredLength, Contribution, Copyable, AdvanceAll, SlotValid, Announced,
         Crc32.Remainder, Crc32.SameOutside, Crc32.MessageBits;
    var a, b := Stream(fs)[..Announced(fs)], Stream(gs)[..Announced(fs)];
    VerdictStays(s, fs);
    VerdictStays(t, gs);
    if Crc32.Remainder(a) == Crc32.Remainder(b) {
      Crc32.BurstChangesRemainder(a, b, k);
      Crc32.MessageInjective(a, b);
    }
  }

  // ---------------------------------------------------------------- a section that is never reported

  /** A packet on PID 0x14 that carries a section of exactly the 183 bytes behind its header. */
  function FullPacket(): Packet {
    [0x47, 0x40, 0x14, 0x10, 0, 0x73, 0, 180] + seq(180, _ => 0)
  }

  lemma FullPacketFields(around: Surroundings)
    ensures var p := FullPacket(); UnitStart(p) && PayloadStart(p) == 5 && DeclaredLength(p, around) == 180
  {
    var p := FullPacket();
    assert p[1] == 0x40 && p[3] == 0x10 && p[6] == 0 && p[7] == 180;
    var mem := Memory(p, around.behindPacket);
    assert mem.At(6) == 0 && mem.At(7) == 180;
    assert mem.From(5).At(1) == mem.At(6) && mem.From(5).At(2) == mem.At(7);
  }

  /** That section is transmitted in full, and no call ever reports it. */
  lemma ExactFitIsLost(s: Slot, around: Surroundings)
    requires SlotValid(s)
    ensures var fs := [Feed(FullPacket(), around)];
      Transmission(fs) && |Stream(fs)| == Announced(fs) == 183 && Reports(s, fs) == 0
  {
    hide SlotValid, FullPacket, UnitStart, PayloadStart, DeclaredLength, Reports;
    var fs := [Feed(FullPacket(), around)];
    FullPacketFields(around);
    StreamOne(fs);
    ReportedOnce(s, fs);
  }
}
