/**
 Section reassembly of m2tlib/packet.c: the payloads of one PID's packets are gathered in a
 buffer that is sized by the section's own length field.
 */
module SectionAssembly {
  import opened Bytes
  import opened BitReader
  import opened Header
  import Crc32

  /** PACKET_LIST of one PID, with the buffer's contents (empty for a null pointer). */
  datatype Slot = Slot(enable: bool, payload: seq<byte>, size: nat, copied: nat, crcCheck: nat, loading: bool)

  /**
   What the program finds where it reads past the bytes that it was given: the memory behind
   the packet, and the memory behind the reassembly buffer.
   */
  datatype Surroundings = Surroundings(behindPacket: nat -> byte, behindBuffer: nat -> byte)

  const SLACK: nat := 188
  const MAX_SIZE: nat := 4098

  function Zeroed(n: nat): (z: seq<byte>)
    ensures |z| == n
  {
    seq(n, _ => 0)
  }

  // ---------------------------------------------------------------- specification

  /** The section_length field in the twelve bits that follow four at the assumed payload start. */
  function DeclaredLength(p: Packet, around: Surroundings): nat {
    SectionLength(Memory(p, around.behindPacket).From(PayloadStart(p)))
  }

  /** The slot as a unit-start packet re-initialises it, before its bytes are copied. */
  function Opened(s: Slot, p: Packet, around: Surroundings): Slot {
    var size := DeclaredLength(p, around) + 3;
    s.(copied := 0, size := size, payload := Zeroed(size + SLACK))
  }

  /** The bytes a packet contributes: everything from the assumed payload start on. */
  function Contribution(p: Packet): seq<byte>
    requires PayloadStart(p) <= PACKET_SIZE
  {
    p[PayloadStart(p)..]
  }

  /** memcpy of `bytes` to offset `at`. */
  function Overwrite(buffer: seq<byte>, at: nat, bytes: seq<byte>): seq<byte>
    requires at + |bytes| <= |buffer|
  {
    buffer[..at] + bytes + buffer[at + |bytes|..]
  }

  function Copied(s: Slot, bytes: seq<byte>): Slot
    requires s.copied + |bytes| <= |s.payload|
  {
    s.(payload := Overwrite(s.payload, s.copied, bytes), copied := s.copied + |bytes|)
  }

  /** The verdict recorded for a completed section, by the length field that the buffer holds. */
  function Verdict(s: Slot, around: Surroundings): nat {
    Flag(Crc32.Passes(Memory(s.payload, around.behindBuffer)))
  }

  /** The completion test after a copy; a section must be exceeded, not just reached. */
  function Closed(s: Slot, pid: nat, around: Surroundings): (Slot, int) {
    if s.copied <= s.size then (s.(loading := true), 0)
    else if s.size < 7 then (s.(loading := false), 0)
    else if pid == 0 then (s.(loading := false), 1)
    else (s.(loading := false, crcCheck := Verdict(s, around)), 1)
  }

  /**
   What every step keeps: while a section is loading its buffer has 188 spare bytes and at
   most `size` bytes have been copied, so every copy fits and 16-bit counters never wrap.
   */
  predicate SlotValid(s: Slot) {
    && s.size <= MAX_SIZE
    && s.copied <= s.size + SLACK
    && (s.loading ==> |s.payload| == s.size + SLACK && s.copied <= s.size)
    && (s.copied > 0 ==> |s.payload| == s.size + SLACK)
  }

  /** `st_packet`: the slot afterwards and the return value. */
  function StepSlot(s: Slot, p: Packet, around: Surroundings): (Slot, int)
    requires SlotValid(s)
  {
    if UnitStart(p) then
      if PayloadStart(p) > PACKET_SIZE then (Opened(s, p, around), 0)
      else Closed(Copied(Opened(s, p, around), Contribution(p)), Pid(p), around)
    else if !s.loading || PayloadStart(p) > PACKET_SIZE then (s, 0)
    else Closed(Copied(s, Contribution(p)), Pid(p), around)
  }

  function Idle(enable: bool): (s: Slot)
    ensures SlotValid(s)
  {
    Slot(enable, [], 0, 0, 0, false)
  }

  lemma StepKeepsValid(s: Slot, p: Packet, around: Surroundings)
    requires SlotValid(s)
    ensures SlotValid(StepSlot(s, p, around).0)
    ensures s.copied < 0x1_0000 && s.size < 0x1_0000
  {
    hide Verdict, SectionLength, Pid, PayloadStart, UnitStart;
    assert DeclaredLength(p, around) < 4096;
  }

  /** The recorded verdict changes only with a completed section, and never on PID 0. */
  lemma VerdictKept(s: Slot, p: Packet, around: Surroundings)
    requires SlotValid(s) && (Pid(p) == 0 || StepSlot(s, p, around).1 == 0)
    ensures StepSlot(s, p, around).0.crcCheck == s.crcCheck
  {
    hide Verdict, SectionLength, Pid, PayloadStart, UnitStart;
  }

  // ---------------------------------------------------------------- the C program

  lemma HeadStart(p: Packet)
    ensures HeadOf(p).payloadStart == PayloadStart(p)
  {}

  lemma LengthFieldAt(mem: Memory, k: nat)
    ensures Bits(mem, 12 + k * 8, 12) == SectionLength(mem.From(k))
  {
    hide Bits;
    Fields(mem, k + 1);
    assert mem.From(k).At(1) == mem.At(k + 1) && mem.From(k).At(2) == mem.At(k + 2);
  }

  method ReadLength(buf: Packet, head: TsHead, around: Surroundings) returns (sectionLength: nat)
    requires head == HeadOf(buf)
    ensures sectionLength == DeclaredLength(buf, around)
  {
    hide SectionLength, HeadOf, PayloadStart, Bits;
    HeadStart(buf);
    var mem := Memory(buf, around.behindPacket);
    var boff := 12 + head.payloadStart * 8;
    sectionLength, boff := GetBit(mem, boff, 12);
    LengthFieldAt(mem, head.payloadStart);
  }

  class PacketSlot {
    var enable: bool
    var payload: array?<byte>
    var size: nat
    var copybytes: nat
    var crcCheck: nat
    var loading: bool

    constructor (enable: bool)
      ensures State() == Idle(enable) && payload == null
    {
      this.enable := enable;
      payload, size, copybytes, crcCheck, loading := null, 0, 0, 0, false;
    }

    function State(): Slot
      reads this, payload
    {
      Slot(enable, if payload == null then [] else payload[..], size, copybytes, crcCheck, loading)
    }

    /** `st_packet` on the slot of the packet's PID. */
    method Store(buf: Packet, stale: TsHead, around: Surroundings) returns (r: int)
      requires Synced(buf) && SlotValid(State())
      modifies this, payload
      ensures (State(), r) == StepSlot(old(State()), buf, around)
      ensures SlotValid(State())
      ensures payload == old(payload) || fresh(payload)
    {
      hide Crc32.Remainder, SectionLength, Pid, PayloadStart, AdaptOf, Verdict;
      StepKeepsValid(State(), buf, around);
      var head := StHead(buf, stale);
      if head.unitStart == 1 {
        Open(buf, head, around);
      } else if !loading {
        return 0;
      }
      var copySize := 188 - head.payloadStart;
      if copySize < 0 {
        return 0;
      }
      Append(buf[head.payloadStart..]);
      r := Close(head.pid, around);
    }

    /** The re-initialisation by a unit-start packet. */
    method Open(buf: Packet, head: TsHead, around: Surroundings)
      requires head == HeadOf(buf)
      modifies this
      ensures State() == Opened(old(State()), buf, around)
      ensures fresh(payload)
    {
      hide SectionLength, HeadOf;
      copybytes := 0;
      var sectionLength := ReadLength(buf, head, around);
      size := sectionLength + 3;
      payload := new byte[size + SLACK](_ => 0);
      assert payload[..] == Zeroed(size + SLACK);
    }

    /** memcpy behind the bytes that are already there. */
    method Append(bytes: seq<byte>)
      requires payload != null && copybytes + |bytes| <= payload.Length
      modifies this, payload
      ensures State() == Copied(old(State()), bytes)
      ensures payload == old(payload)
    {
      forall i | 0 <= i < |bytes| {
        payload[copybytes + i] := bytes[i];
      }
      assert payload[..] == Overwrite(old(payload[..]), copybytes, bytes);
      copybytes := copybytes + |bytes|;
    }

    /** The completion test. */
    method Close(pid: nat, around: Surroundings) returns (r: int)
      requires payload != null && payload.Length == size + SLACK
      modifies this
      ensures (State(), r) == Closed(old(State()), pid, around)
      ensures payload == old(payload)
    {
      hide Crc32.Remainder, SectionLength;
      if copybytes > size {
        loading := false;
        if size < 7 {
          return 0;
        }
        if pid == 0 {
          return 1;
        }
        crcCheck := Crc32.Check(Memory(payload[..], around.behindBuffer));
        return 1;
      }
      loading := true;
      return 0;
    }

    /** `free_packet_list`: everything but `enable` is cleared. */
    method Free()
      modifies this
      ensures State() == Idle(old(enable))
    {
      payload, size, copybytes, crcCheck, loading := null, 0, 0, 0, false;
    }
  }
}
