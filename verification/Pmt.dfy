/**
 The program map table decoder of m2tlib/pmt.c (section 2.4.4.8 of ISO/IEC 13818-1).
 The linked list of streams is kept as a sequence.
 */
module Pmt {
  import opened Bytes
  import opened BitReader
  import opened Sections

  datatype Stream = Stream(streamType: nat, pid: nat, infoLength: nat)

  datatype TsPmt = TsPmt(
    header: SectionHeader,
    pcrPid: nat,
    programInfoLength: nat,
    streams: seq<Stream>,
    endOfStreams: nat,
    numOfStreams: nat)

  function StreamAt(mem: Memory, k: nat): Stream {
    Stream(mem.At(k), Field13(mem, k + 1), Field12(mem, k + 3))
  }

  /** The streams read from byte `k` on while the cursor is before byte `end`. */
  function StreamsFrom(mem: Memory, k: nat, end: nat): seq<Stream>
    decreases end - k
  {
    if k >= end then []
    else [StreamAt(mem, k)] + StreamsFrom(mem, k + 5 + StreamAt(mem, k).infoLength, end)
  }

  const TWO_64: nat := 0x1_0000_0000_0000_0000

  /** The end of the streams as a 64-bit unsigned number; it wraps for lengths below 4. */
  function EndOfStreams(length: nat): nat {
    (length - 4) % TWO_64
  }

  predicate GuardHolds(boff: nat, length: nat) {
    boff / 8 < EndOfStreams(length)
  }

  /** Below length 4, and only there, no 64-bit cursor ever ends the loop. */
  lemma LoopEnds(length: nat)
    requires length < 4096
    ensures length >= 4 <==> exists boff: nat :: boff < TWO_64 && !GuardHolds(boff, length)
  {
    if length >= 4 {
      assert !GuardHolds(8 * (length - 4), length);
    }
  }

  lemma HeaderLength(mem: Memory)
    ensures HeaderAt(mem).length < 4096
  {}

  /** One turn of the loop: the entry's fixed part is read and its descriptors are skipped. */
  method ReadStream(buf: Memory, start: nat) returns (p: Stream, boff: nat)
    requires start % 8 == 0
    ensures p == StreamAt(buf, start / 8)
    ensures boff == start + 8 * (5 + p.infoLength)
  {
    hide Bits, Pow2, Field13, Field12;
    ghost var k := start / 8;
    var streamType, gomi, pid, infoLength: nat;
    ByteNumber(buf, k);
    Fields(buf, k + 1);
    Fields(buf, k + 3);
    streamType, boff := GetBit(buf, start, 8);
    gomi, boff := GetBit(buf, boff, 3);
    pid, boff := GetBit(buf, boff, 13);
    gomi, boff := GetBit(buf, boff, 4);
    infoLength, boff := GetBit(buf, boff, 12);
    boff := boff + infoLength * 8;
    p := Stream(streamType, pid, infoLength);
  }

  /** `st_pmt`, which returns only for lengths from 4 on. */
  method StPmt(buf: Memory) returns (out: TsPmt)
    requires HeaderAt(buf).length >= 4
    ensures out.header == HeaderAt(buf)
    ensures out.pcrPid == Field13(buf, 8) && out.programInfoLength == Field12(buf, 10)
    ensures out.endOfStreams == EndOfStreams(out.header.length) == out.header.length - 4
    ensures out.streams == StreamsFrom(buf, 12 + out.programInfoLength, out.endOfStreams)
    ensures out.numOfStreams == |out.streams|
  {
    hide Bits, Pow2, Field13, Field12, HeaderAt, StreamAt;
    var header, boff := ReadHeader(buf);
    var gomi, pcrPid, programInfoLength: nat;
    Fields(buf, 8);
    Fields(buf, 10);
    gomi, boff := GetBit(buf, boff, 3);
    pcrPid, boff := GetBit(buf, boff, 13);
    gomi, boff := GetBit(buf, boff, 4);
    programInfoLength, boff := GetBit(buf, boff, 12);
    boff := boff + programInfoLength * 8;

    var endOfStreams := EndOfStreams(header.length);
    HeaderLength(buf);
    var numOfStreams := 0;
    var streams: seq<Stream> := [];
    ghost var k := 12 + programInfoLength;
    ghost var all := StreamsFrom(buf, k, endOfStreams);
    while boff / 8 < endOfStreams
      invariant boff == 8 * k
      invariant streams + StreamsFrom(buf, k, endOfStreams) == all
      invariant numOfStreams == |streams|
      decreases endOfStreams - k
    {
      var p: Stream;
      p, boff := ReadStream(buf, boff);
      streams := streams + [p];
      numOfStreams := numOfStreams + 1;
      k := k + 5 + p.infoLength;
    }
    out := TsPmt(header, pcrPid, programInfoLength, streams, endOfStreams, numOfStreams);
  }

  // ---------------------------------------------------------------- encoding

  /** An elementary stream with its descriptors; reserved bits take any value. */
  datatype Elementary = Elementary(streamType: nat, pid: nat, info: seq<byte>, reserved1: nat, reserved2: nat)

  predicate ValidElementary(e: Elementary) {
    e.streamType < 256 && e.pid < 8192 && |e.info| < 4096 && e.reserved1 < 8 && e.reserved2 < 16
  }

  predicate ValidElementaries(s: seq<Elementary>) {
    forall i :: 0 <= i < |s| ==> ValidElementary(s[i])
  }

  /** The entry's five bytes before its descriptors. */
  function FixedPart(e: Elementary): (s: seq<byte>)
    requires ValidElementary(e)
    ensures |s| == 5
  {
    [e.streamType, e.reserved1 * 32 + e.pid / 256, e.pid % 256, e.reserved2 * 16 + |e.info| / 256, |e.info| % 256]
  }

  function EncodeElementaries(s: seq<Elementary>): seq<byte>
    requires ValidElementaries(s)
  {
    if s == [] then [] else FixedPart(s[0]) + s[0].info + EncodeElementaries(s[1..])
  }

  function Decoded(e: Elementary): Stream {
    Stream(e.streamType, e.pid, |e.info|)
  }

  function DecodedAll(s: seq<Elementary>): seq<Stream> {
    if s == [] then [] else [Decoded(s[0])] + DecodedAll(s[1..])
  }

  predicate Holds(p: Stream, e: Elementary) {
    p.streamType == e.streamType && p.pid == e.pid && p.infoLength == |e.info|
  }

  lemma {:induction false} AllHold(s: seq<Elementary>)
    ensures |DecodedAll(s)| == |s| && forall i :: 0 <= i < |s| ==> Holds(DecodedAll(s)[i], s[i])
    decreases |s|
  {
    if s != [] {
      AllHold(s[1..]);
    }
  }

  lemma StreamRoundTrip(mem: Memory, k: nat, e: Elementary)
    requires ValidElementary(e) && Stored(mem, k, FixedPart(e))
    ensures StreamAt(mem, k) == Decoded(e) && Holds(StreamAt(mem, k), e)
  {
    var s := FixedPart(e);
    assert mem.At(k + 0) == s[0] && mem.At(k + 1) == s[1] && mem.At(k + 2) == s[2];
    assert mem.At(k + 3) == s[3] && mem.At(k + 4) == s[4];
    UnpackField(e.reserved1, e.pid, 32);
    UnpackField(e.reserved2, |e.info|, 16);
  }

  /**
   The loop guard is exact although it stops short of the CRC: any bound from four bytes
   before the end of the entries up to that end decodes each of them once, because an entry
   is never shorter than five bytes.
   */
  lemma {:induction false} StreamsRoundTrip(mem: Memory, k: nat, s: seq<Elementary>, end: int)
    requires ValidElementaries(s) && Stored(mem, k, EncodeElementaries(s))
    requires k + |EncodeElementaries(s)| - 4 <= end <= k + |EncodeElementaries(s)| && 0 <= end
    ensures StreamsFrom(mem, k, end) == DecodedAll(s)
    decreases |s|
  {
    hide FixedPart, StreamAt, Stored;
    if s != [] {
      var fixed, info, rest := FixedPart(s[0]), s[0].info, EncodeElementaries(s[1..]);
      StoredSplit(mem, k, fixed + info, rest);
      StoredSplit(mem, k, fixed, info);
      StreamRoundTrip(mem, k, s[0]);
      StreamsRoundTrip(mem, k + 5 + |info|, s[1..], end);
    }
  }

  /** The four bytes between the header and the program descriptors. */
  function EncodeProgram(pcrPid: nat, infoLength: nat, reserved1: nat, reserved2: nat): (s: seq<byte>)
    requires pcrPid < 8192 && infoLength < 4096 && reserved1 < 8 && reserved2 < 16
    ensures |s| == 4
  {
    [reserved1 * 32 + pcrPid / 256, pcrPid % 256, reserved2 * 16 + infoLength / 256, infoLength % 256]
  }

  lemma ProgramRoundTrip(mem: Memory, pcrPid: nat, infoLength: nat, reserved1: nat, reserved2: nat)
    requires pcrPid < 8192 && infoLength < 4096 && reserved1 < 8 && reserved2 < 16
    requires Stored(mem, 8, EncodeProgram(pcrPid, infoLength, reserved1, reserved2))
    ensures Field13(mem, 8) == pcrPid && Field12(mem, 10) == infoLength
  {
    var s := EncodeProgram(pcrPid, infoLength, reserved1, reserved2);
    assert mem.At(8 + 0) == s[0] && mem.At(8 + 1) == s[1] && mem.At(8 + 2) == s[2] && mem.At(8 + 3) == s[3];
    UnpackField(reserved1, pcrPid, 32);
    UnpackField(reserved2, infoLength, 16);
  }

  /** A program map: everything in the section but header, CRC and reserved bits. */
  datatype Program = Program(pcrPid: nat, info: seq<byte>, streams: seq<Elementary>)

  predicate ValidProgram(p: Program) {
    p.pcrPid < 8192 && |p.info| < 4096 && ValidElementaries(p.streams)
  }

  function EncodePmt(h: SectionHeader, p: Program, r: (nat, nat, nat, nat)): seq<byte>
    requires ValidHeader(h) && ValidProgram(p) && r.0 < 8 && r.1 < 4 && r.2 < 8 && r.3 < 16
  {
    EncodeHeader(h, r.0, r.1) + (EncodeProgram(p.pcrPid, |p.info|, r.2, r.3) + (p.info + EncodeElementaries(p.streams)))
  }

  /**
   Decoding inverts encoding: for every well-formed section, whatever its reserved bits and
   whatever follows, each stream is decoded once and in order and the CRC is not read as one.
   */
  lemma PmtRoundTrip(mem: Memory, h: SectionHeader, p: Program, r: (nat, nat, nat, nat))
    requires ValidHeader(h) && ValidProgram(p) && r.0 < 8 && r.1 < 4 && r.2 < 8 && r.3 < 16
    requires h.length + 3 == |EncodePmt(h, p, r)| + 4
    requires Stored(mem, 0, EncodePmt(h, p, r))
    ensures HeaderAt(mem) == h && h.length >= 4
    ensures Field13(mem, 8) == p.pcrPid && Field12(mem, 10) == |p.info|
    ensures var streams := StreamsFrom(mem, 12 + |p.info|, h.length - 4);
      |streams| == |p.streams| && forall i :: 0 <= i < |streams| ==> Holds(streams[i], p.streams[i])
  {
    hide Stored, HeaderAt, Field13, Field12, Holds;
    var head, program := EncodeHeader(h, r.0, r.1), EncodeProgram(p.pcrPid, |p.info|, r.2, r.3);
    var tail := EncodeElementaries(p.streams);
    StoredSplit(mem, 0, head, program + (p.info + tail));
    StoredSplit(mem, 8, program, p.info + tail);
    StoredSplit(mem, 12, p.info, tail);
    HeaderRoundTrip(mem, h, r.0, r.1);
    ProgramRoundTrip(mem, p.pcrPid, |p.info|, r.2, r.3);
    StreamsRoundTrip(mem, 12 + |p.info|, p.streams, h.length - 4);
    AllHold(p.streams);
  }
}
