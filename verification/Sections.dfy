/**
 The eight bytes that PAT, PMT and EIT sections start with, read field by field in
 m2tlib/pat.c, m2tlib/pmt.c and m2tlib/eit.c.
 */
module Sections {
  import opened Bytes
  import opened BitReader

  datatype SectionHeader = SectionHeader(
    tableId: nat,
    syntax: nat,
    length: nat,
    id: nat,
    version: nat,
    currentNext: nat,
    number: nat,
    last: nat)

  function HeaderAt(mem: Memory): SectionHeader {
    SectionHeader(mem.At(0), mem.At(1) / 128, SectionLength(mem), U16(mem, 3),
                  mem.At(5) / 2 % 32, mem.At(5) % 2, mem.At(6), mem.At(7))
  }

  lemma HeaderFields(mem: Memory)
    ensures Bits(mem, 0, 8) == mem.At(0)
    ensures Bits(mem, 8, 1) == mem.At(1) / 128
    ensures Bits(mem, 12, 12) == SectionLength(mem)
    ensures Bits(mem, 24, 16) == U16(mem, 3)
    ensures Bits(mem, 42, 5) == mem.At(5) / 2 % 32
    ensures Bits(mem, 47, 1) == mem.At(5) % 2
    ensures Bits(mem, 48, 8) == mem.At(6)
    ensures Bits(mem, 56, 8) == mem.At(7)
  {
    hide Bits;
    ByteNumber(mem, 0);
    FieldInByte(mem, 1, 0, 1);
    Fields(mem, 1);
    Field16(mem, 3);
    FieldInByte(mem, 5, 2, 5);
    FieldInByte(mem, 5, 7, 1);
    ByteNumber(mem, 6);
    ByteNumber(mem, 7);
    assert Pow2(7) == 128 && Pow2(5) == 32 && Pow2(1) == 2 && Pow2(0) == 1;
  }

  method ReadHeader(mem: Memory) returns (h: SectionHeader, boff: nat)
    ensures h == HeaderAt(mem) && boff == 64
  {
    hide Bits, Pow2, SectionLength;
    var gomi, tableId, syntax, length, id, version, currentNext, number, last: nat;
    HeaderFields(mem);
    boff := 0;
    tableId, boff := GetBit(mem, boff, 8);
    syntax, boff := GetBit(mem, boff, 1);
    gomi, boff := GetBit(mem, boff, 1);
    gomi, boff := GetBit(mem, boff, 2);
    length, boff := GetBit(mem, boff, 12);
    id, boff := GetBit(mem, boff, 16);
    gomi, boff := GetBit(mem, boff, 2);
    version, boff := GetBit(mem, boff, 5);
    currentNext, boff := GetBit(mem, boff, 1);
    number, boff := GetBit(mem, boff, 8);
    last, boff := GetBit(mem, boff, 8);
    h := SectionHeader(tableId, syntax, length, id, version, currentNext, number, last);
  }

  // ---------------------------------------------------------------- encoding

  predicate ValidHeader(h: SectionHeader) {
    h.tableId < 256 && h.syntax < 2 && h.length < 4096 && h.id < 65536 && h.version < 32 && h.currentNext < 2
    && h.number < 256 && h.last < 256
  }

  /** The header's bytes; the reserved bits take any value. */
  function EncodeHeader(h: SectionHeader, reserved1: nat, reserved2: nat): (s: seq<byte>)
    requires ValidHeader(h) && reserved1 < 8 && reserved2 < 4
    ensures |s| == 8
  {
    [h.tableId, h.syntax * 128 + reserved1 * 16 + h.length / 256, h.length % 256, h.id / 256, h.id % 256,
     reserved2 * 64 + h.version * 2 + h.currentNext, h.number, h.last]
  }

  /** The bytes `s` are in memory from offset `k` on. */
  predicate Stored(mem: Memory, k: nat, s: seq<byte>) {
    forall i :: 0 <= i < |s| ==> mem.At(k + i) == s[i]
  }

  lemma StoredSplit(mem: Memory, k: nat, a: seq<byte>, b: seq<byte>)
    requires Stored(mem, k, a + b)
    ensures Stored(mem, k, a) && Stored(mem, k + |a|, b)
  {
    forall i | 0 <= i < |a|
      ensures mem.At(k + i) == a[i]
    {
      assert (a + b)[i] == a[i];
    }
    forall i | 0 <= i < |b|
      ensures mem.At(k + |a| + i) == b[i]
    {
      assert mem.At(k + (|a| + i)) == (a + b)[|a| + i];
    }
  }

  /** Bytes at the start of a buffer are stored there. */
  lemma PrefixStored(mem: Memory, n: nat, data: seq<byte>, e: seq<byte>)
    requires n <= |mem.bytes| && n <= |data| && mem.bytes[..n] == data[..n] && |e| <= n && e <= data
    ensures Stored(mem, 0, e)
  {
    forall i | 0 <= i < |e|
      ensures mem.bytes[i] == e[i]
    {
      assert mem.bytes[i] == mem.bytes[..n][i] == data[..n][i];
    }
  }

  lemma UnpackLength(syntax: nat, reserved: nat, length: nat)
    requires syntax < 2 && reserved < 8 && length < 4096
    ensures var b := syntax * 128 + reserved * 16 + length / 256; b / 128 == syntax && Join(b % 16, length % 256) == length
  {}

  lemma UnpackVersion(reserved: nat, version: nat, currentNext: nat)
    requires reserved < 4 && version < 32 && currentNext < 2
    ensures var b := reserved * 64 + version * 2 + currentNext; b / 2 % 32 == version && b % 2 == currentNext
  {}

  lemma HeaderRoundTrip(mem: Memory, h: SectionHeader, reserved1: nat, reserved2: nat)
    requires ValidHeader(h) && reserved1 < 8 && reserved2 < 4
    requires Stored(mem, 0, EncodeHeader(h, reserved1, reserved2))
    ensures HeaderAt(mem) == h
  {
    var s := EncodeHeader(h, reserved1, reserved2);
    assert mem.At(0) == s[0] && mem.At(1) == s[1] && mem.At(2) == s[2] && mem.At(3) == s[3];
    assert mem.At(4) == s[4] && mem.At(5) == s[5] && mem.At(6) == s[6] && mem.At(7) == s[7];
    UnpackLength(h.syntax, reserved1, h.length);
    UnpackVersion(reserved2, h.version, h.currentNext);
  }

  /** A 13-bit PID after three reserved bits, or a 12-bit length after four. */
  lemma UnpackField(reserved: nat, value: nat, width: nat)
    requires width == 32 || width == 16
    requires value < width * 256
    ensures value / 256 < width && Join((reserved * width + value / 256) % width, value % 256) == value
  {}
}
