/**
 The time offset table of m2tlib/tot.c (section 5.2.6 of ETSI EN 300 468): only its
 header is checked and only its time is kept.
 */
module Tot {
  import opened Bytes
  import opened BitReader
  import opened Calendar
  import opened Sections

  datatype TsTot = TsTot(tableId: nat, syntax: nat, length: nat, tm: Tm, disable: nat)

  /** The sections that are taken for a time. */
  predicate ValidTot(mem: Memory) {
    mem.At(0) == 0x73 && mem.At(1) / 128 == 0 && SectionLength(mem) <= 1021
  }

  /** `st_tot`; `stale` is what the caller's structure held. */
  method StTot(buf: Memory, stale: TsTot) returns (out: TsTot)
    ensures out.disable == if ValidTot(buf) then 0 else 1
    ensures out.tm == if ValidTot(buf) then TimeAt(buf.From(3)) else stale.tm
    ensures out.tableId == buf.At(0) && out.syntax == buf.At(1) / 128 && out.length == SectionLength(buf)
  {
    hide Bits, Pow2, TimeAt, ValidDate, SectionLength;
    var boff := 0;
    var gomi, tableId, syntax, length: nat;
    HeaderFields(buf);
    tableId, boff := GetBit(buf, boff, 8);
    syntax, boff := GetBit(buf, boff, 1);
    gomi, boff := GetBit(buf, boff, 1);
    gomi, boff := GetBit(buf, boff, 2);
    length, boff := GetBit(buf, boff, 12);
    out := stale.(tableId := tableId, syntax := syntax, length := length);
    if out.tableId != 0x73 || out.syntax == 1 || out.length > 1021 {
      out := out.(disable := 1);
      return;
    }
    out := out.(disable := 0);
    var tm := TimeToTm(buf.From(boff / 8));
    out := out.(tm := tm);
  }

  /** What the first eight bytes of a section on the table's PID say, whatever table it is. */
  datatype TimeTable = TimeTable(
    tableId: nat,
    syntax: nat,
    reserved: nat,
    length: nat,
    mjd: nat,
    hour: nat,
    min: nat,
    sec: nat)

  predicate ValidTable(t: TimeTable) {
    && t.tableId < 256 && t.syntax < 2 && t.reserved < 8 && t.length < 4096
    && t.mjd < 65536 && t.hour < 100 && t.min < 100 && t.sec < 100
  }

  function EncodeTot(t: TimeTable): (s: seq<byte>)
    requires ValidTable(t)
    ensures |s| == 8
  {
    [t.tableId, t.syntax * 128 + t.reserved * 16 + t.length / 256, t.length % 256, t.mjd / 256, t.mjd % 256,
     Packed(t.hour), Packed(t.min), Packed(t.sec)]
  }

  /** The table is a time offset table as the program takes one. */
  predicate IsTimeOffset(t: TimeTable) {
    t.tableId == 0x73 && t.syntax == 0 && t.length <= 1021
  }

  function TimeOfTable(t: TimeTable): Tm {
    Tm(MjdToDate(t.mjd), t.hour, t.min, t.sec)
  }

  lemma FromAt(mem: Memory, k: nat, i: nat)
    ensures mem.From(k).At(i) == mem.At(k + i)
  {}

  /** Decoding a section yields its time, and it is valid exactly if it is a time offset table of at most that length. */
  lemma {:induction false} TotRoundTrip(mem: Memory, t: TimeTable)
    requires ValidTable(t) && Stored(mem, 0, EncodeTot(t))
    ensures ValidTot(mem) <==> t.tableId == 0x73 && t.syntax == 0 && t.length <= 1021
    ensures TimeAt(mem.From(3)) == Tm(MjdToDate(t.mjd), t.hour, t.min, t.sec)
  {
    hide MjdToDate, HexToDigi, Packed;
    var s := EncodeTot(t);
    assert mem.At(0) == s[0] && mem.At(1) == s[1] && mem.At(2) == s[2] && mem.At(3) == s[3];
    assert mem.At(4) == s[4] && mem.At(5) == s[5] && mem.At(6) == s[6] && mem.At(7) == s[7];
    UnpackLength(t.syntax, t.reserved, t.length);
    FromAt(mem, 3, 0);
    FromAt(mem, 3, 1);
    FromAt(mem, 3, 2);
    FromAt(mem, 3, 3);
    FromAt(mem, 3, 4);
    PackedRoundTrip(t.hour);
    PackedRoundTrip(t.min);
    PackedRoundTrip(t.sec);
  }
}
