/**
 The transport packet header of m2tlib/head.c (section 2.4.3.2 of ISO/IEC 13818-1).
 */
module Header {
  import opened Bytes
  import opened BitReader
  import opened Adaptation

  datatype TsHead = TsHead(
    syncByte: byte,
    transportError: nat,
    unitStart: nat,
    priority: nat,
    pid: nat,
    scrambling: nat,
    adaptationControl: nat,
    continuity: nat,
    payloadStart: nat,
    adaptationLength: nat,
    adapt: AdaptationField)

  // ---------------------------------------------------------------- specification

  predicate Synced(p: Packet) {
    p[0] == SYNC_BYTE
  }

  function Pid(p: Packet): (pid: nat)
    ensures pid < PID_COUNT
  {
    Join(p[1] % 32, p[2])
  }

  function AdaptationControl(p: Packet): (c: nat)
    ensures c < 4
  {
    p[3] / 16 % 4
  }

  function HeaderCounter(p: Packet): (c: nat)
    ensures c < 16
  {
    p[3] % 16
  }

  predicate UnitStart(p: Packet) {
    p[1] / 64 % 2 == 1
  }

  predicate HasPayload(p: Packet) {
    AdaptationControl(p) % 2 == 1
  }

  /** The adaptation field's bytes: everything behind the four header bytes. */
  function AfterHeader(p: Packet): (d: seq<byte>)
    ensures Readable(d)
  {
    p[4..]
  }

  function AdaptOf(p: Packet): AdaptationField {
    if AdaptationControl(p) >= 2 && Fits(AfterHeader(p)) then Parsed(AfterHeader(p)) else ZERO
  }

  predicate Discontinuity(p: Packet) {
    AdaptOf(p).discontinuity
  }

  function WithAdaptation(length: byte): nat {
    4 + length
  }

  /**
   Where the program takes the payload to begin.  With both an adaptation field and a payload
   that is 4 + adaptation_field_length (the length byte itself is not counted), and a packet
   that starts a unit is taken to hold one more byte before it, whatever that byte says.
   */
  function PayloadStart(p: Packet): nat {
    (if AdaptationControl(p) == 2 then 0
     else if AdaptationControl(p) == 3 then WithAdaptation(p[4])
     else 4) + (if UnitStart(p) then 1 else 0)
  }

  function HeadOf(p: Packet): TsHead {
    TsHead(p[0], p[1] / 128, p[1] / 64 % 2, p[1] / 32 % 2, Pid(p), p[3] / 64, AdaptationControl(p), HeaderCounter(p),
           PayloadStart(p), if AdaptationControl(p) >= 2 then p[4] else 0, AdaptOf(p))
  }

  // ---------------------------------------------------------------- st_head

  lemma HeaderFields(mem: Memory)
    ensures Bits(mem, 8, 1) == mem.At(1) / 128
    ensures Bits(mem, 9, 1) == mem.At(1) / 64 % 2
    ensures Bits(mem, 10, 1) == mem.At(1) / 32 % 2
    ensures Bits(mem, 11, 13) == mem.At(1) % 32 * 256 + mem.At(2)
    ensures Bits(mem, 24, 2) == mem.At(3) / 64
    ensures Bits(mem, 26, 2) == mem.At(3) / 16 % 4
    ensures Bits(mem, 28, 4) == mem.At(3) % 16
  {
    hide Bits;
    FieldInByte(mem, 1, 0, 1);
    FieldInByte(mem, 1, 1, 1);
    FieldInByte(mem, 1, 2, 1);
    FieldAcross(mem, 1, 3);
    FieldInByte(mem, 3, 0, 2);
    FieldInByte(mem, 3, 2, 2);
    FieldInByte(mem, 3, 4, 4);
    assert Pow2(7) == 128 && Pow2(6) == 64 && Pow2(5) == 32 && Pow2(4) == 16 && Pow2(2) == 4 && Pow2(1) == 2 && Pow2(0) == 1;
  }

  /**
   `stale` is what the caller's structure held.  Without the sync byte only the first eight
   bytes of the structure are cleared; the rest keeps its stale value.
   */
  method StHead(buf: Packet, stale: TsHead) returns (head: TsHead)
    ensures Synced(buf) ==> head == HeadOf(buf)
    ensures !Synced(buf) ==>
      head == TsHead(buf[0], 0, 0, 0, 0, 0, 0, stale.continuity, stale.payloadStart, stale.adaptationLength, stale.adapt)
  {
    hide Bits, Readable, Fits, Parsed, Pow2;
    var mem := Memory(buf, _ => 0);
    var boff := 0;
    var sync, error, start, priority, pid, scrambling, control, continuity: nat;
    head := stale;
    sync, boff := GetBit(mem, boff, 8);
    ByteNumber(mem, 0);
    if sync != SYNC_BYTE {
      head := TsHead(sync, 0, 0, 0, 0, 0, 0, head.continuity, head.payloadStart, head.adaptationLength, head.adapt);
      return;
    }
    error, boff := GetBit(mem, boff, 1);
    start, boff := GetBit(mem, boff, 1);
    priority, boff := GetBit(mem, boff, 1);
    pid, boff := GetBit(mem, boff, 13);
    scrambling, boff := GetBit(mem, boff, 2);
    control, boff := GetBit(mem, boff, 2);
    continuity, boff := GetBit(mem, boff, 4);
    HeaderFields(mem);

    var length, payloadStart: nat := 0, 4;
    if control == 1 {
    } else if control == 2 {
      length, boff := GetBit(mem, boff, 8);
      ByteNumber(mem, 4);
      payloadStart := 0;
    } else if control == 3 {
      length, boff := GetBit(mem, boff, 8);
      ByteNumber(mem, 4);
      payloadStart := 4 + length;
    }
    if start == 1 {
      payloadStart := payloadStart + 1;
    }
    var adapt := ZERO;
    if control >= 2 {
      adapt := Extract(AfterHeader(buf));
    }
    head := TsHead(sync, error, start, priority, pid, scrambling, control, continuity, payloadStart, length, adapt);
  }

  // ---------------------------------------------------------------- encoding

  /** The header's fields behind the sync byte. */
  datatype HeadFields = HeadFields(
    error: nat,
    start: nat,
    priority: nat,
    pid: nat,
    scrambling: nat,
    control: nat,
    continuity: nat)

  predicate ValidFields(f: HeadFields) {
    && f.error < 2 && f.start < 2 && f.priority < 2 && f.pid < 8192
    && f.scrambling < 4 && f.control < 4 && f.continuity < 16
  }

  /** The four header bytes with the given fields. */
  function EncodeHead(f: HeadFields): (s: seq<byte>)
    requires ValidFields(f)
    ensures |s| == 4
  {
    [0x47, f.error * 128 + f.start * 64 + f.priority * 32 + f.pid / 256, f.pid % 256,
     f.scrambling * 64 + f.control * 16 + f.continuity]
  }

  /** The packet's header has these fields. */
  predicate HasFields(p: Packet, f: HeadFields) {
    ValidFields(f) && p[..4] == EncodeHead(f)
  }

  lemma UnpackSecond(error: nat, start: nat, priority: nat, high: nat)
    requires error < 2 && start < 2 && priority < 2 && high < 32
    ensures var b := error * 128 + start * 64 + priority * 32 + high;
      b / 128 == error && b / 64 % 2 == start && b / 32 % 2 == priority && b % 32 == high
  {}

  lemma UnpackFourth(scrambling: nat, control: nat, continuity: nat)
    requires scrambling < 4 && control < 4 && continuity < 16
    ensures var b := scrambling * 64 + control * 16 + continuity;
      b / 64 == scrambling && b / 16 % 4 == control && b % 16 == continuity
  {}

  lemma HeadBytes(p: Packet, f: HeadFields)
    requires HasFields(p, f)
    ensures ValidFields(f) && p[0] == 0x47
    ensures p[1] / 128 == f.error && p[1] / 64 % 2 == f.start && p[1] / 32 % 2 == f.priority
    ensures Join(p[1] % 32, p[2]) == f.pid
    ensures p[3] / 64 == f.scrambling && p[3] / 16 % 4 == f.control && p[3] % 16 == f.continuity
  {
    UnpackSecond(f.error, f.start, f.priority, f.pid / 256);
    UnpackFourth(f.scrambling, f.control, f.continuity);
    var s := p[..4];
    assert p[0] == s[0] && p[1] == s[1] && p[2] == s[2] && p[3] == s[3];
  }

  /** The first payload byte by the program's reckoning, from the encoded fields. */
  function EncodedStart(f: HeadFields, lengthByte: byte): nat {
    match f.control
    case 1 => 4 + f.start
    case 2 => f.start
    case 3 => 4 + lengthByte + f.start
    case _ => 4 + f.start
  }

  lemma StartOf(p: Packet, f: HeadFields)
    requires ValidFields(f) && AdaptationControl(p) == f.control && (UnitStart(p) <==> f.start == 1)
    ensures PayloadStart(p) == EncodedStart(f, p[4])
  {
    hide AdaptationControl, UnitStart;
  }

  lemma {:induction false} HeadRoundTrip(p: Packet, f: HeadFields)
    requires HasFields(p, f)
    ensures var h := HeadOf(p);
      && h.syncByte == 0x47 && h.transportError == f.error && h.unitStart == f.start && h.priority == f.priority
      && h.pid == f.pid && h.scrambling == f.scrambling && h.adaptationControl == f.control && h.continuity == f.continuity
      && h.payloadStart == EncodedStart(f, p[4])
      && h.adaptationLength == if f.control == 2 || f.control == 3 then p[4] else 0
    ensures Synced(p) && Pid(p) == f.pid && HeaderCounter(p) == f.continuity && AdaptationControl(p) == f.control
    ensures UnitStart(p) <==> f.start == 1
    ensures HasPayload(p) <==> f.control == 1 || f.control == 3
    ensures PayloadStart(p) == EncodedStart(f, p[4])
  {
    HeadBytes(p, f);
    hide AdaptOf, EncodeHead, HasFields, PayloadStart, EncodedStart;
    StartOf(p, f);
  }

  /** The fields that a packet with the sync byte has. */
  function FieldsOf(p: Packet): HeadFields {
    HeadFields(p[1] / 128, p[1] / 64 % 2, p[1] / 32 % 2, Join(p[1] % 32, p[2]), p[3] / 64, p[3] / 16 % 4, p[3] % 16)
  }

  lemma PackSecond(b: byte)
    ensures b == b / 128 * 128 + b / 64 % 2 * 64 + b / 32 % 2 * 32 + b % 32
  {}

  lemma PackFourth(b: byte)
    ensures b == b / 64 * 64 + b / 16 % 4 * 16 + b % 16
  {}

  /** Every packet with the sync byte is encoded from some fields. */
  lemma {:induction false} EveryPacketHasFields(p: Packet)
    requires p[0] == 0x47
    ensures HasFields(p, FieldsOf(p))
  {
    PackSecond(p[1]);
    PackFourth(p[3]);
    var f := FieldsOf(p);
    assert f.pid / 256 == p[1] % 32 && f.pid % 256 == p[2];
  }
}
