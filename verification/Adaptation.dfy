/**
 The adaptation field parser of m2tlib/head_adapt.c
 (section 2.4.3.4 of ISO/IEC 13818-1).
 */
module Adaptation {
  import opened Bytes
  import BitReader

  /** ADAPTATION_FIELD; the extension's values are grouped. */
  datatype AdaptationField = AdaptationField(
    length: nat,
    discontinuity: bool,
    randomAccess: bool,
    elementaryStreamPriority: bool,
    pcrFlag: bool,
    opcrFlag: bool,
    splicingPointFlag: bool,
    privateDataFlag: bool,
    extensionFlag: bool,
    programClock: int,
    originalProgramClock: int,
    spliceCountdown: nat,
    privateDataLength: nat,
    extension: Extension)

  datatype Extension = Extension(
    length: nat,
    ltwFlag: bool,
    piecewiseRateFlag: bool,
    seamlessSpliceFlag: bool,
    ltwValid: bool,
    ltwOffset: nat,
    piecewiseRate: nat,
    spliceType: nat,
    dtsNextAu: nat)

  const NO_EXTENSION := Extension(0, false, false, false, false, 0, 0, 0, 0)

  /** What memset leaves. */
  const ZERO := AdaptationField(0, false, false, false, false, false, false, false, false, 0, 0, 0, 0, NO_EXTENSION)

  // ---------------------------------------------------------------- the layout, declaratively

  /** The field's own bytes are readable: its length byte and, if that is usable, what it covers. */
  predicate Readable(data: seq<byte>) {
    |data| >= 1 && (1 <= data[0] <= 183 ==> |data| >= 1 + data[0])
  }

  predicate UsableLength(data: seq<byte>) {
    Readable(data) && 1 <= data[0] <= 183
  }

  function If(c: bool, n: nat): nat {
    if c then n else 0
  }

  predicate PcrFlag(data: seq<byte>) requires UsableLength(data) { data[1] / 16 % 2 == 1 }
  predicate OpcrFlag(data: seq<byte>) requires UsableLength(data) { data[1] / 8 % 2 == 1 }
  predicate SpliceFlag(data: seq<byte>) requires UsableLength(data) { data[1] / 4 % 2 == 1 }
  predicate PrivateFlag(data: seq<byte>) requires UsableLength(data) { data[1] / 2 % 2 == 1 }
  predicate ExtensionFlag(data: seq<byte>) requires UsableLength(data) { data[1] % 2 == 1 }

  /** Where the original clock reference is, if there is one: after the clock reference. */
  function OriginalAt(data: seq<byte>): nat
    requires UsableLength(data)
  {
    2 + If(PcrFlag(data), 6)
  }

  /** Where the splice countdown is, if there is one: after both clock references. */
  function SpliceAt(data: seq<byte>): nat
    requires UsableLength(data)
  {
    OriginalAt(data) + If(OpcrFlag(data), 6)
  }

  function PrivateAt(data: seq<byte>): nat
    requires UsableLength(data)
  {
    SpliceAt(data) + If(SpliceFlag(data), 1)
  }

  /** The fields up to the private data's length byte lie inside the declared length. */
  predicate FixedPartFits(data: seq<byte>)
    requires UsableLength(data)
  {
    PrivateAt(data) + If(PrivateFlag(data), 1) <= 1 + data[0]
  }

  /** Private data with its length byte. */
  function PrivateSize(n: byte): nat {
    1 + n
  }

  function ExtensionAt(data: seq<byte>): nat
    requires UsableLength(data) && FixedPartFits(data)
  {
    var k := PrivateAt(data);
    k + if PrivateFlag(data) then PrivateSize(data[k]) else 0
  }

  /** Bytes that an extension with these flags must hold besides its flag byte. */
  function ExtensionNeeds(flags: byte): nat {
    If(flags / 128 == 1, 2) + If(flags / 64 % 2 == 1, 3) + If(flags / 32 % 2 == 1, 5)
  }

  /**
   The extension, its length byte at `k`, lies inside the declared length and holds what its
   flags announce.  A length of zero passes only if the byte after it announces nothing.
   */
  predicate ExtensionFits(data: seq<byte>, k: nat)
    requires UsableLength(data)
  {
    && k + 2 <= 1 + data[0]
    && k + 1 + data[k] <= 1 + data[0]
    && (ExtensionNeeds(data[k + 1]) == 0 || 1 + ExtensionNeeds(data[k + 1]) <= data[k])
  }

  /** Every optional field that is declared fits in the declared length. */
  predicate Fits(data: seq<byte>)
    requires Readable(data)
  {
    && 1 <= data[0] <= 183
    && FixedPartFits(data)
    && ExtensionAt(data) <= 1 + data[0]
    && (ExtensionFlag(data) ==> ExtensionFits(data, ExtensionAt(data)))
  }

  /** A 32-bit word as a signed int. */
  function Signed32(w: nat): int
    requires w < 0x1_0000_0000
  {
    if w < 0x8000_0000 then w else w - 0x1_0000_0000
  }

  /**
   A clock reference as the program computes it: four bytes as a signed 32-bit word, shifted up
   by ten bits; below them the top bit of the next byte at bit 9, its lowest at bit 1, and the
   last byte.
   */
  function ClockOf(s: seq<byte>): int
    requires |s| == 6
  {
    var high := Signed32(Join(Join(Join(s[0], s[1]), s[2]), s[3]));
    var top: nat, low: nat := s[4] / 128, s[4] % 2;
    high * 1024 + top * 512 + BitReader.BitOr(low * 2, s[5])
  }

  function LtwOffset(b0: byte, b1: byte): nat {
    b0 % 128 * 256 + b1
  }

  function PiecewiseRate(b0: byte, b1: byte, b2: byte): nat {
    b0 % 64 * 65536 + b1 * 256 + b2
  }

  function DtsNextAu(b0: byte, b1: byte, b2: byte, b3: byte, b4: byte): nat {
    (b0 / 2 % 8 * 32768 + b1 * 128 + b2 / 2) * 32768 + b3 * 128 + b4 / 2
  }

  /** The extension's values, its length byte at `k`. */
  function ExtensionOf(data: seq<byte>, k: nat): Extension
    requires UsableLength(data) && ExtensionFits(data, k)
  {
    var flags := data[k + 1];
    var ltw, rate, seamless := flags / 128 == 1, flags / 64 % 2 == 1, flags / 32 % 2 == 1;
    var r := k + 2 + If(ltw, 2);
    var s := r + If(rate, 3);
    Extension(data[k], ltw, rate, seamless,
              ltw && data[k + 2] / 128 == 1,
              if ltw then LtwOffset(data[k + 2], data[k + 3]) else 0,
              if rate then PiecewiseRate(data[r], data[r + 1], data[r + 2]) else 0,
              if seamless then data[s] / 16 else 0,
              if seamless then DtsNextAu(data[s], data[s + 1], data[s + 2], data[s + 3], data[s + 4]) else 0)
  }

  /** The flags of the field's second byte. */
  function Flags(data: seq<byte>): AdaptationField
    requires UsableLength(data)
  {
    ZERO.(length := data[0],
          discontinuity := data[1] / 128 == 1,
          randomAccess := data[1] / 64 % 2 == 1,
          elementaryStreamPriority := data[1] / 32 % 2 == 1,
          pcrFlag := PcrFlag(data),
          opcrFlag := OpcrFlag(data),
          splicingPointFlag := SpliceFlag(data),
          privateDataFlag := PrivateFlag(data),
          extensionFlag := ExtensionFlag(data))
  }

  /** The values before the extension. */
  function FixedPart(data: seq<byte>): AdaptationField
    requires UsableLength(data) && FixedPartFits(data)
  {
    Flags(data).(programClock := if PcrFlag(data) then ClockOf(data[2..8]) else 0,
                 originalProgramClock := if OpcrFlag(data) then ClockOf(data[OriginalAt(data)..OriginalAt(data) + 6]) else 0,
                 spliceCountdown := if SpliceFlag(data) then data[SpliceAt(data)] else 0,
                 privateDataLength := if PrivateFlag(data) then data[PrivateAt(data)] else 0)
  }

  /** The structure that a fitting field describes. */
  function Parsed(data: seq<byte>): AdaptationField
    requires Readable(data) && Fits(data)
  {
    FixedPart(data).(extension := if ExtensionFlag(data) then ExtensionOf(data, ExtensionAt(data)) else NO_EXTENSION)
  }

  // ---------------------------------------------------------------- the C program

  /** The flags and the optional fields before the extension; `p` is left where that would start. */
  method ExtractFixed(data: seq<byte>) returns (dst: AdaptationField, p: nat, fits: bool)
    requires UsableLength(data)
    ensures fits <==> FixedPartFits(data) && ExtensionAt(data) <= 1 + data[0]
    ensures fits ==> p == ExtensionAt(data) && dst == FixedPart(data)
    ensures fits ==> dst.extensionFlag == ExtensionFlag(data) && dst.length == data[0] && dst.extension == NO_EXTENSION
  {
    hide ClockOf;
    dst := ZERO.(length := data[0]);
    p := 1;
    fits := false;
    var tail := p + dst.length;
    if p + 1 > tail {
      return;
    }
    var flags := data[p];
    dst := dst.(discontinuity := flags / 128 == 1,
                randomAccess := flags / 64 % 2 == 1,
                elementaryStreamPriority := flags / 32 % 2 == 1,
                pcrFlag := flags / 16 % 2 == 1,
                opcrFlag := flags / 8 % 2 == 1,
                splicingPointFlag := flags / 4 % 2 == 1,
                privateDataFlag := flags / 2 % 2 == 1,
                extensionFlag := flags % 2 == 1);
    assert dst == Flags(data);
    p := p + 1;
    if dst.pcrFlag {
      if p + 6 > tail {
        return;
      }
      dst := dst.(programClock := ClockOf(data[p..p + 6]));
      p := p + 6;
    }
    assert p == OriginalAt(data);
    if dst.opcrFlag {
      if p + 6 > tail {
        return;
      }
      dst := dst.(originalProgramClock := ClockOf(data[p..p + 6]));
      p := p + 6;
    }
    assert p == SpliceAt(data);
    if dst.splicingPointFlag {
      if p + 1 > tail {
        return;
      }
      dst := dst.(spliceCountdown := data[p]);
      p := p + 1;
    }
    assert p == PrivateAt(data) <= tail;
    if dst.privateDataFlag {
      if p + 1 > tail {
        return;
      }
      var n := data[p];
      dst := dst.(privateDataLength := n);
      p := p + 1 + n;
      if p > tail {
        return;
      }
    }
    fits := true;
  }

  /** The last optional part, read with the counter `n` of bytes that remain in it. */
  method ExtractExtension(data: seq<byte>, start: nat, tail: nat) returns (dst: Extension, fits: bool)
    requires UsableLength(data) && tail == 1 + data[0]
    ensures fits <==> ExtensionFits(data, start)
    ensures fits ==> dst == ExtensionOf(data, start)
  {
    hide LtwOffset, PiecewiseRate, DtsNextAu;
    dst := NO_EXTENSION;
    var p := start;
    if p + 2 > tail {
      return dst, false;
    }
    var n: int := data[p];
    dst := dst.(length := n);
    p := p + 1;
    if p + n > tail {
      return dst, false;
    }
    var flags := data[p];
    dst := dst.(ltwFlag := flags / 128 == 1,
                piecewiseRateFlag := flags / 64 % 2 == 1,
                seamlessSpliceFlag := flags / 32 % 2 == 1);
    p := p + 1;
    n := n - 1;
    if dst.ltwFlag {
      if n < 2 {
        return dst, false;
      }
      dst := dst.(ltwValid := data[p] / 128 == 1, ltwOffset := LtwOffset(data[p], data[p + 1]));
      p := p + 2;
      n := n - 2;
    }
    if dst.piecewiseRateFlag {
      if n < 3 {
        return dst, false;
      }
      dst := dst.(piecewiseRate := PiecewiseRate(data[p], data[p + 1], data[p + 2]));
      p := p + 3;
      n := n - 3;
    }
    if dst.seamlessSpliceFlag {
      if n < 5 {
        return dst, false;
      }
      dst := dst.(spliceType := data[p] / 16,
                  dtsNextAu := DtsNextAu(data[p], data[p + 1], data[p + 2], data[p + 3], data[p + 4]));
      p := p + 5;
      n := n - 5;
    }
    fits := true;
  }

  /**
   All or nothing: the described structure if every declared field fits, otherwise the zero
   structure.  Only bytes that `Readable` grants are touched.
   */
  method Extract(data: seq<byte>) returns (dst: AdaptationField)
    requires Readable(data)
    ensures dst == if Fits(data) then Parsed(data) else ZERO
  {
    hide ExtensionOf, ExtensionFits, FixedPart, PcrFlag, OpcrFlag, SpliceFlag, PrivateFlag;
    dst := ZERO;
    if data[0] == 0 || data[0] > 183 {
      return;
    }
    var p, fits;
    dst, p, fits := ExtractFixed(data);
    if !fits {
      return ZERO;
    }
    if dst.extensionFlag {
      var extension: Extension;
      extension, fits := ExtractExtension(data, p, 1 + dst.length);
      if !fits {
        return ZERO;
      }
      dst := dst.(extension := extension);
    }
  }

  // ---------------------------------------------------------------- what it means

  /** A fitting field never reads as the zero structure, so zero means exactly "does not fit". */
  lemma AllOrNothing(data: seq<byte>)
    requires Readable(data)
    ensures (if Fits(data) then Parsed(data) else ZERO) == ZERO <==> !Fits(data)
  {}

  lemma SameFlags(data: seq<byte>, other: seq<byte>)
    requires UsableLength(data) && UsableLength(other) && data[0] == other[0] && data[1] == other[1]
    ensures PcrFlag(data) == PcrFlag(other) && OpcrFlag(data) == OpcrFlag(other) && SpliceFlag(data) == SpliceFlag(other)
    ensures PrivateFlag(data) == PrivateFlag(other) && ExtensionFlag(data) == ExtensionFlag(other)
    ensures Flags(data) == Flags(other)
  {}

  lemma SameFixed(data: seq<byte>, other: seq<byte>)
    requires UsableLength(data) && UsableLength(other) && data[0] == other[0]
    requires forall i :: 0 <= i < 1 + data[0] ==> data[i] == other[i]
    ensures ExtensionFlag(data) == ExtensionFlag(other) && FixedPartFits(data) == FixedPartFits(other)
    ensures FixedPartFits(data) ==> ExtensionAt(data) == ExtensionAt(other) && FixedPart(data) == FixedPart(other)
  {
    hide ClockOf, PcrFlag, OpcrFlag, SpliceFlag, PrivateFlag, ExtensionFlag;
    SameFlags(data, other);
    if FixedPartFits(data) {
      if PcrFlag(data) {
        assert data[2..8] == other[2..8];
      }
      if OpcrFlag(data) {
        assert data[OriginalAt(data)..OriginalAt(data) + 6] == other[OriginalAt(data)..OriginalAt(data) + 6];
      }
    }
  }

  lemma SameExtension(data: seq<byte>, other: seq<byte>, k: nat)
    requires UsableLength(data) && UsableLength(other) && data[0] == other[0]
    requires forall i :: 0 <= i < 1 + data[0] ==> data[i] == other[i]
    ensures ExtensionFits(data, k) == ExtensionFits(other, k)
    ensures ExtensionFits(data, k) ==> ExtensionOf(data, k) == ExtensionOf(other, k)
  {
    hide LtwOffset, PiecewiseRate, DtsNextAu;
  }

  /** The bytes behind the declared length change nothing. */
  lemma {:induction false} OnlyDeclaredBytes(data: seq<byte>, other: seq<byte>)
    requires Readable(data) && Readable(other)
    requires data[0] == other[0]
    requires UsableLength(data) ==> data[..1 + data[0]] == other[..1 + data[0]]
    ensures Fits(data) == Fits(other)
    ensures Fits(data) ==> Parsed(data) == Parsed(other)
  {
    hide ExtensionOf, ExtensionFits, FixedPart, FixedPartFits, ExtensionAt, ExtensionFlag;
    if UsableLength(data) {
      assert forall i :: 0 <= i < 1 + data[0] ==> data[i] == data[..1 + data[0]][i] == other[i];
      SameFixed(data, other);
      if FixedPartFits(data) && ExtensionAt(data) <= 1 + data[0] {
        SameExtension(data, other, ExtensionAt(data));
      }
    }
  }
}
