/**
 The program association table decoder of m2tlib/pat.c (section 2.4.4.3 of ISO/IEC 13818-1).
 The linked list of entries is kept as a sequence.
 */
module Pat {
  import opened Bytes
  import opened BitReader
  import opened Sections

  /** TS_PAT_PIDS: program 0 fills the network PID, any other program its map PID. */
  datatype Entry = Entry(program: nat, networkPid: nat, mapPid: nat)

  datatype TsPat = TsPat(header: SectionHeader, numOfPids: nat, pids: seq<Entry>)

  /** C's division of ints, which truncates. */
  function CDiv(a: int, b: int): int
    requires b > 0
  {
    if a >= 0 then a / b else -((-a) / b)
  }

  /** The entry count as a 16-bit unsigned number; it wraps for lengths below 6. */
  function NumOfPids(sectionLength: nat): nat {
    CDiv(sectionLength - 5 - 4, 4) % 0x1_0000
  }

  function EntryAt(mem: Memory, k: nat): Entry {
    var program, pid := U16(mem, k), Join(mem.At(k + 2) % 32, mem.At(k + 3));
    if program == 0 then Entry(0, pid, 0) else Entry(program, 0, pid)
  }

  function EntriesAt(mem: Memory, k: nat, n: nat): (es: seq<Entry>)
    ensures |es| == n
  {
    if n == 0 then [] else EntriesAt(mem, k, n - 1) + [EntryAt(mem, k + 4 * (n - 1))]
  }

  /** The table that the program makes of the section in memory. */
  function PatAt(mem: Memory): TsPat {
    var n := NumOfPids(HeaderAt(mem).length);
    TsPat(HeaderAt(mem), n, EntriesAt(mem, 8, n))
  }

  lemma EntryFields(mem: Memory, k: nat)
    ensures Bits(mem, 8 * k, 16) == U16(mem, k)
    ensures Bits(mem, 8 * k + 19, 13) == Join(mem.At(k + 2) % 32, mem.At(k + 3))
  {
    hide Bits;
    Field16(mem, k);
    FieldAcross(mem, k + 2, 3);
    assert Pow2(5) == 32;
  }

  /** One turn of the loop. */
  method ReadEntry(buf: Memory, start: nat) returns (p: Entry, boff: nat)
    requires start % 8 == 0
    ensures p == EntryAt(buf, start / 8) && boff == start + 32
  {
    hide Bits, Pow2, U16;
    EntryFields(buf, start / 8);
    p := Entry(0, 0, 0);
    var program, gomi, pid: nat;
    program, boff := GetBit(buf, start, 16);
    p := p.(program := program);
    gomi, boff := GetBit(buf, boff, 3);
    if p.program == 0 {
      pid, boff := GetBit(buf, boff, 13);
      p := p.(networkPid := pid);
    } else {
      pid, boff := GetBit(buf, boff, 13);
      p := p.(mapPid := pid);
    }
  }

  /** `st_pat` */
  method StPat(buf: Memory) returns (out: TsPat)
    ensures out == PatAt(buf)
  {
    hide HeaderAt, EntryAt;
    var header, boff := ReadHeader(buf);
    var numOfPids := CDiv(header.length - 5 - 4, 4) % 0x1_0000;
    var pids: seq<Entry> := [];
    for i := 0 to numOfPids
      invariant boff == 8 * (8 + 4 * i)
      invariant pids == EntriesAt(buf, 8, i)
    {
      var p: Entry;
      p, boff := ReadEntry(buf, boff);
      pids := pids + [p];
    }
    out := TsPat(header, numOfPids, pids);
  }

  /** The map PID of the first entry of a program; 0 if there is none, or for program 0. */
  function MapPidOf(entries: seq<Entry>, program: nat): nat {
    if entries == [] then 0
    else if entries[0].program != 0 && entries[0].program == program then entries[0].mapPid
    else MapPidOf(entries[1..], program)
  }

  /** `get_pmt_pid` */
  method GetPmtPid(pat: TsPat, serviceId: nat) returns (pid: nat)
    ensures pid == MapPidOf(pat.pids[..if pat.numOfPids < |pat.pids| then pat.numOfPids else |pat.pids|], serviceId)
  {
    var n := if pat.numOfPids < |pat.pids| then pat.numOfPids else |pat.pids|;
    var i := 0;
    while i < pat.numOfPids
      invariant i <= n
      invariant MapPidOf(pat.pids[..n], serviceId) == MapPidOf(pat.pids[..n][i..], serviceId)
    {
      if i == |pat.pids| {
        break;
      }
      var p := pat.pids[i];
      assert pat.pids[..n][i..][0] == p && pat.pids[..n][i..][1..] == pat.pids[..n][i + 1..];
      if p.program != 0 && serviceId == p.program {
        return p.mapPid;
      }
      i := i + 1;
    }
    return 0;
  }

  // ---------------------------------------------------------------- encoding

  /** A program and its PID; the three reserved bits take any value. */
  datatype Association = Association(program: nat, pid: nat, reserved: nat)

  predicate ValidAssociation(a: Association) {
    a.program < 65536 && a.pid < 8192 && a.reserved < 8
  }

  predicate ValidAssociations(s: seq<Association>) {
    forall i :: 0 <= i < |s| ==> ValidAssociation(s[i])
  }

  function EncodeAssociation(a: Association): (s: seq<byte>)
    requires ValidAssociation(a)
    ensures |s| == 4
  {
    [a.program / 256, a.program % 256, a.reserved * 32 + a.pid / 256, a.pid % 256]
  }

  function EncodeAssociations(s: seq<Association>): (b: seq<byte>)
    requires ValidAssociations(s)
    ensures |b| == 4 * |s|
  {
    if s == [] then [] else EncodeAssociations(s[..|s| - 1]) + EncodeAssociation(s[|s| - 1])
  }

  function Decoded(a: Association): Entry {
    if a.program == 0 then Entry(0, a.pid, 0) else Entry(a.program, 0, a.pid)
  }

  function DecodedAll(s: seq<Association>): (es: seq<Entry>)
    ensures |es| == |s|
  {
    seq(|s|, i requires 0 <= i < |s| => Decoded(s[i]))
  }

  /** The PID is kept in the field that the program number chooses, and the other field is 0. */
  predicate Holds(e: Entry, a: Association) {
    && e.program == a.program
    && e.networkPid == (if a.program == 0 then a.pid else 0)
    && e.mapPid == (if a.program == 0 then 0 else a.pid)
  }

  lemma EntryRoundTrip(mem: Memory, k: nat, a: Association)
    requires ValidAssociation(a) && Stored(mem, k, EncodeAssociation(a))
    ensures EntryAt(mem, k) == Decoded(a) && Holds(EntryAt(mem, k), a)
  {
    var s := EncodeAssociation(a);
    assert mem.At(k + 0) == s[0] && mem.At(k + 1) == s[1] && mem.At(k + 2) == s[2] && mem.At(k + 3) == s[3];
    UnpackField(a.reserved, a.pid, 32);
  }

  lemma {:induction false} EntriesRoundTrip(mem: Memory, k: nat, s: seq<Association>)
    requires ValidAssociations(s) && Stored(mem, k, EncodeAssociations(s))
    ensures EntriesAt(mem, k, |s|) == DecodedAll(s)
    decreases |s|
  {
    hide EncodeAssociation, EntryAt, Decoded;
    if s != [] {
      var n := |s| - 1;
      StoredSplit(mem, k, EncodeAssociations(s[..n]), EncodeAssociation(s[n]));
      EntriesRoundTrip(mem, k, s[..n]);
      EntryRoundTrip(mem, k + 4 * n, s[n]);
    }
  }

  /** The bytes of a section before its CRC, with the length field that fits its entries. */
  function EncodePat(h: SectionHeader, reserved1: nat, reserved2: nat, s: seq<Association>): seq<byte>
    requires ValidHeader(h) && reserved1 < 8 && reserved2 < 4 && ValidAssociations(s)
  {
    EncodeHeader(h, reserved1, reserved2) + EncodeAssociations(s)
  }

  /**
   Decoding inverts encoding: whatever follows the entries (the CRC and beyond), every entry
   comes back once and in order.
   */
  lemma PatRoundTrip(mem: Memory, h: SectionHeader, reserved1: nat, reserved2: nat, s: seq<Association>)
    requires ValidHeader(h) && reserved1 < 8 && reserved2 < 4 && ValidAssociations(s)
    requires h.length == 5 + 4 * |s| + 4
    requires Stored(mem, 0, EncodePat(h, reserved1, reserved2, s))
    ensures PatAt(mem) == TsPat(h, |s|, DecodedAll(s))
    ensures forall i :: 0 <= i < |s| ==> Holds(PatAt(mem).pids[i], s[i])
  {
    StoredSplit(mem, 0, EncodeHeader(h, reserved1, reserved2), EncodeAssociations(s));
    HeaderRoundTrip(mem, h, reserved1, reserved2);
    EntriesRoundTrip(mem, 8, s);
  }

  /** Looking a program up in a decoded table gives the PID of its first association. */
  lemma {:induction false} LookupDecoded(s: seq<Association>, program: nat, i: nat)
    requires program != 0 && i <= |s|
    requires forall j :: 0 <= j < i ==> s[j].program != program
    requires i < |s| ==> s[i].program == program
    ensures MapPidOf(DecodedAll(s), program) == if i < |s| then s[i].pid else 0
    decreases |s|
  {
    if s != [] {
      assert DecodedAll(s)[1..] == DecodedAll(s[1..]);
      if i > 0 {
        LookupDecoded(s[1..], program, i - 1);
      }
    }
  }

  /** For lengths from 6 on, the count is what fits; shorter lengths wrap. */
  lemma CountOfPids(length: nat)
    requires length < 4096
    ensures length >= 9 ==> 4 * NumOfPids(length) <= length - 9 < 4 * NumOfPids(length) + 4
    ensures NumOfPids(length) <= 1021 <==> length >= 6
  {}
}
