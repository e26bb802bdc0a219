/**
 Adaptation fields as section 2.4.3.4 of ISO/IEC 13818-1 writes them, and what the parser makes
 of them: it inverts the encoding, and it accepts nothing else but empty extensions.
 */
module AdaptationCoding {
  import opened Bytes
  import opened Adaptation
  import BitReader

  datatype Option<T> = None | Some(value: T)

  datatype Ltw = Ltw(valid: bool, offset: nat)

  /** A rate after two reserved bits. */
  datatype Rate = Rate(reserved: nat, value: nat)

  /** A time stamp in three parts, each followed by a marker bit. */
  datatype Seamless = Seamless(kind: nat, dts: nat, marker0: nat, marker1: nat, marker2: nat)

  datatype ExtensionSource = ExtensionSource(
    reservedBits: nat,
    ltw: Option<Ltw>,
    rate: Option<Rate>,
    seamless: Option<Seamless>,
    reserved: seq<byte>)

  datatype Source = Source(
    discontinuity: bool,
    randomAccess: bool,
    elementaryStreamPriority: bool,
    pcr: Option<seq<byte>>,
    opcr: Option<seq<byte>>,
    splice: Option<byte>,
    privateData: Option<seq<byte>>,
    extension: Option<ExtensionSource>,
    stuffing: seq<byte>)

  // ---------------------------------------------------------------- encoding

  predicate ValidLtw(l: Ltw) {
    l.offset < 32768
  }

  function EncodeLtw(l: Ltw): (s: seq<byte>)
    requires ValidLtw(l)
    ensures |s| == 2
  {
    [Flag(l.valid) * 128 + l.offset / 256, l.offset % 256]
  }

  predicate ValidRate(r: Rate) {
    r.reserved < 4 && r.value < 0x40_0000
  }

  function EncodeRate(r: Rate): (s: seq<byte>)
    requires ValidRate(r)
    ensures |s| == 3
  {
    [r.reserved * 64 + r.value / 65536, r.value / 256 % 256, r.value % 256]
  }

  predicate ValidSeamless(s: Seamless) {
    s.kind < 16 && s.dts < 0x2_0000_0000 && s.marker0 < 2 && s.marker1 < 2 && s.marker2 < 2
  }

  function EncodeSeamless(s: Seamless): (b: seq<byte>)
    requires ValidSeamless(s)
    ensures |b| == 5
  {
    var high, low := s.dts / 32768, s.dts % 32768;
    [s.kind * 16 + high / 32768 * 2 + s.marker0, high / 128 % 256, high % 128 * 2 + s.marker1,
     low / 128, low % 128 * 2 + s.marker2]
  }

  predicate ValidExtension(e: ExtensionSource) {
    && e.reservedBits < 32
    && (e.ltw.Some? ==> ValidLtw(e.ltw.value))
    && (e.rate.Some? ==> ValidRate(e.rate.value))
    && (e.seamless.Some? ==> ValidSeamless(e.seamless.value))
    && |e.reserved| <= 183
  }

  function LtwPart(e: ExtensionSource): (s: seq<byte>)
    requires ValidExtension(e)
    ensures |s| == If(e.ltw.Some?, 2)
  {
    if e.ltw.Some? then EncodeLtw(e.ltw.value) else []
  }

  function RatePart(e: ExtensionSource): (s: seq<byte>)
    requires ValidExtension(e)
    ensures |s| == If(e.rate.Some?, 3)
  {
    if e.rate.Some? then EncodeRate(e.rate.value) else []
  }

  function SeamlessPart(e: ExtensionSource): (s: seq<byte>)
    requires ValidExtension(e)
    ensures |s| == If(e.seamless.Some?, 5)
  {
    if e.seamless.Some? then EncodeSeamless(e.seamless.value) else []
  }

  function ExtensionFlags(e: ExtensionSource): byte
    requires ValidExtension(e)
  {
    Flag(e.ltw.Some?) * 128 + Flag(e.rate.Some?) * 64 + Flag(e.seamless.Some?) * 32 + e.reservedBits
  }

  function ExtensionBody(e: ExtensionSource): (s: seq<byte>)
    requires ValidExtension(e)
    ensures |s| < 256
  {
    [ExtensionFlags(e)] + (LtwPart(e) + (RatePart(e) + (SeamlessPart(e) + e.reserved)))
  }

  function EncodeExtension(e: ExtensionSource): seq<byte>
    requires ValidExtension(e)
  {
    [|ExtensionBody(e)|] + ExtensionBody(e)
  }

  predicate ValidParts(s: Source) {
    && (s.pcr.Some? ==> |s.pcr.value| == 6)
    && (s.opcr.Some? ==> |s.opcr.value| == 6)
    && (s.privateData.Some? ==> |s.privateData.value| < 256)
    && (s.extension.Some? ==> ValidExtension(s.extension.value))
  }

  function PcrPart(s: Source): (b: seq<byte>)
    requires ValidParts(s)
    ensures |b| == If(s.pcr.Some?, 6)
  {
    if s.pcr.Some? then s.pcr.value else []
  }

  function OpcrPart(s: Source): (b: seq<byte>)
    requires ValidParts(s)
    ensures |b| == If(s.opcr.Some?, 6)
  {
    if s.opcr.Some? then s.opcr.value else []
  }

  function SplicePart(s: Source): (b: seq<byte>)
    ensures |b| == If(s.splice.Some?, 1)
  {
    if s.splice.Some? then [s.splice.value] else []
  }

  function PrivatePart(s: Source): seq<byte>
    requires ValidParts(s)
  {
    if s.privateData.Some? then [|s.privateData.value|] + s.privateData.value else []
  }

  function ExtensionPart(s: Source): seq<byte>
    requires ValidParts(s)
  {
    if s.extension.Some? then EncodeExtension(s.extension.value) else []
  }

  function FlagByte(s: Source): byte {
    Flag(s.discontinuity) * 128 + Flag(s.randomAccess) * 64 + Flag(s.elementaryStreamPriority) * 32 + Flag(s.pcr.Some?) * 16
    + Flag(s.opcr.Some?) * 8 + Flag(s.splice.Some?) * 4 + Flag(s.privateData.Some?) * 2 + Flag(s.extension.Some?)
  }

  /** The optional parts in the order of the standard, then stuffing. */
  function Parts(s: Source): seq<byte>
    requires ValidParts(s)
  {
    PcrPart(s) + (OpcrPart(s) + (SplicePart(s) + (PrivatePart(s) + (ExtensionPart(s) + s.stuffing))))
  }

  function Body(s: Source): seq<byte>
    requires ValidParts(s)
  {
    [FlagByte(s)] + Parts(s)
  }

  /** The parts are well formed and together at most 183 bytes long. */
  predicate ValidSource(s: Source) {
    ValidParts(s) && |Body(s)| <= 183
  }

  function Encode(s: Source): seq<byte>
    requires ValidSource(s)
  {
    [|Body(s)|] + Body(s)
  }

  // ---------------------------------------------------------------- what an encoding says

  function MeaningOfExtension(e: ExtensionSource): Extension
    requires ValidExtension(e)
  {
    Extension(|ExtensionBody(e)|, e.ltw.Some?, e.rate.Some?, e.seamless.Some?,
              e.ltw.Some? && e.ltw.value.valid,
              if e.ltw.Some? then e.ltw.value.offset else 0,
              if e.rate.Some? then e.rate.value.value else 0,
              if e.seamless.Some? then e.seamless.value.kind else 0,
              if e.seamless.Some? then e.seamless.value.dts else 0)
  }

  function Meaning(s: Source): AdaptationField
    requires ValidSource(s)
  {
    AdaptationField(|Body(s)|, s.discontinuity, s.randomAccess, s.elementaryStreamPriority,
                    s.pcr.Some?, s.opcr.Some?, s.splice.Some?, s.privateData.Some?, s.extension.Some?,
                    if s.pcr.Some? then ClockOf(s.pcr.value) else 0,
                    if s.opcr.Some? then ClockOf(s.opcr.value) else 0,
                    if s.splice.Some? then s.splice.value else 0,
                    if s.privateData.Some? then |s.privateData.value| else 0,
                    if s.extension.Some? then MeaningOfExtension(s.extension.value) else NO_EXTENSION)
  }

  // ---------------------------------------------------------------- decoding inverts encoding

  /** The bytes `s` are in `data` from offset `k` on. */
  predicate Holds(data: seq<byte>, k: nat, s: seq<byte>) {
    k + |s| <= |data| && data[k..k + |s|] == s
  }

  lemma HoldsSplit(data: seq<byte>, k: nat, a: seq<byte>, b: seq<byte>)
    requires Holds(data, k, a + b)
    ensures Holds(data, k, a) && Holds(data, k + |a|, b)
  {
    assert data[k..k + |a|] == data[k..k + |a + b|][..|a|] == a;
    assert data[k + |a|..k + |a| + |b|] == data[k..k + |a + b|][|a|..] == b;
  }

  lemma HoldsByte(data: seq<byte>, k: nat, s: seq<byte>, i: nat)
    requires Holds(data, k, s) && i < |s|
    ensures data[k + i] == s[i]
  {
    assert data[k + i] == data[k..k + |s|][i];
  }

  lemma UnpackLtw(l: Ltw)
    requires ValidLtw(l)
    ensures var s := EncodeLtw(l); s[0] / 128 == Flag(l.valid) && LtwOffset(s[0], s[1]) == l.offset
  {}

  lemma SplitRate(v: nat)
    ensures v / 65536 * 65536 + v / 256 % 256 * 256 + v % 256 == v
  {}

  lemma LowBits(high: nat, low: nat, width: nat)
    requires low < width && (width == 8 || width == 16 || width == 64)
    ensures (high * width + low) % width == low && (high * width + low) / width == high
  {}

  lemma UnpackRate(r: Rate)
    requires ValidRate(r)
    ensures var s := EncodeRate(r); PiecewiseRate(s[0], s[1], s[2]) == r.value
  {
    SplitRate(r.value);
    LowBits(r.reserved, r.value / 65536, 64);
  }

  lemma SplitHigh(h: nat)
    ensures (h / 32768 * 32768 + h / 128 % 256 * 128 + h % 128) == h
  {}

  lemma SplitLow(low: nat, m: nat)
    requires m < 2
    ensures low / 128 * 128 + (low % 128 * 2 + m) / 2 == low
  {}

  lemma Halve(x: nat, m: nat)
    requires m < 2
    ensures (x * 2 + m) / 2 == x
  {}

  lemma UnpackKind(kind: nat, a: nat, m: nat)
    requires a < 8 && m < 2
    ensures (kind * 16 + a * 2 + m) / 16 == kind && (kind * 16 + a * 2 + m) / 2 % 8 == a
  {
    assert kind * 16 + a * 2 + m == (kind * 8 + a) * 2 + m;
    Halve(kind * 8 + a, m);
    LowBits(kind, a, 8);
    LowBits(kind, a * 2 + m, 16);
  }

  lemma HighParts(first: nat, third: nat, a: nat, c: nat, m: nat)
    requires first / 2 % 8 == a && third == c * 2 + m && m < 2
    ensures first / 2 % 8 * 32768 == a * 32768 && third / 2 == c
  {}

  lemma UnpackSeamless(s: Seamless)
    requires ValidSeamless(s)
    ensures var b := EncodeSeamless(s); b[0] / 16 == s.kind && DtsNextAu(b[0], b[1], b[2], b[3], b[4]) == s.dts
  {
    var high, low := s.dts / 32768, s.dts % 32768;
    var a, b, c := high / 32768, high / 128 % 256, high % 128;
    SplitHigh(high);
    SplitLow(low, s.marker2);
    UnpackKind(s.kind, a, s.marker0);
    HighParts(s.kind * 16 + a * 2 + s.marker0, c * 2 + s.marker1, a, c, s.marker1);
  }

  lemma UnpackExtensionFlags(e: ExtensionSource)
    requires ValidExtension(e)
    ensures var f := ExtensionFlags(e);
      && (f / 128 == 1 <==> e.ltw.Some?) && (f / 64 % 2 == 1 <==> e.rate.Some?) && (f / 32 % 2 == 1 <==> e.seamless.Some?)
  {}

  lemma HoldsLength(data: seq<byte>, k: nat, s: seq<byte>)
    requires Holds(data, k, s)
    ensures k + |s| <= |data|
  {}

  lemma HeldLtw(data: seq<byte>, p: nat, l: Ltw)
    requires ValidLtw(l) && Holds(data, p, EncodeLtw(l))
    ensures p + 2 <= |data| && data[p] / 128 == Flag(l.valid) && LtwOffset(data[p], data[p + 1]) == l.offset
  {
    hide Holds, EncodeLtw, LtwOffset;
    UnpackLtw(l);
    HoldsLength(data, p, EncodeLtw(l));
    HoldsByte(data, p, EncodeLtw(l), 0);
    HoldsByte(data, p, EncodeLtw(l), 1);
  }

  lemma HeldRate(data: seq<byte>, p: nat, r: Rate)
    requires ValidRate(r) && Holds(data, p, EncodeRate(r))
    ensures p + 3 <= |data| && PiecewiseRate(data[p], data[p + 1], data[p + 2]) == r.value
  {
    hide Holds, EncodeRate, PiecewiseRate;
    UnpackRate(r);
    HoldsLength(data, p, EncodeRate(r));
    HoldsByte(data, p, EncodeRate(r), 0);
    HoldsByte(data, p, EncodeRate(r), 1);
    HoldsByte(data, p, EncodeRate(r), 2);
  }

  lemma HeldSeamless(data: seq<byte>, p: nat, s: Seamless)
    requires ValidSeamless(s) && Holds(data, p, EncodeSeamless(s))
    ensures p + 5 <= |data| && data[p] / 16 == s.kind
    ensures DtsNextAu(data[p], data[p + 1], data[p + 2], data[p + 3], data[p + 4]) == s.dts
  {
    hide Holds, EncodeSeamless, DtsNextAu;
    UnpackSeamless(s);
    HoldsLength(data, p, EncodeSeamless(s));
    HoldsByte(data, p, EncodeSeamless(s), 0);
    HoldsByte(data, p, EncodeSeamless(s), 1);
    HoldsByte(data, p, EncodeSeamless(s), 2);
    HoldsByte(data, p, EncodeSeamless(s), 3);
    HoldsByte(data, p, EncodeSeamless(s), 4);
  }

  /** The parts of an extension are where the parser looks for them. */
  lemma ExtensionPlaces(data: seq<byte>, k: nat, e: ExtensionSource)
    requires ValidExtension(e) && Holds(data, k, EncodeExtension(e))
    ensures k + 1 < |data| && data[k] == |ExtensionBody(e)| && data[k + 1] == ExtensionFlags(e)
    ensures Holds(data, k + 2, LtwPart(e))
    ensures Holds(data, k + 2 + |LtwPart(e)|, RatePart(e))
    ensures Holds(data, k + 2 + |LtwPart(e)| + |RatePart(e)|, SeamlessPart(e))
  {
    hide Holds, ExtensionFlags, LtwPart, RatePart, SeamlessPart;
    var afterLtw := RatePart(e) + (SeamlessPart(e) + e.reserved);
    HoldsByte(data, k, EncodeExtension(e), 0);
    HoldsByte(data, k, EncodeExtension(e), 1);
    HoldsSplit(data, k, [|ExtensionBody(e)|], ExtensionBody(e));
    HoldsSplit(data, k + 1, [ExtensionFlags(e)], LtwPart(e) + afterLtw);
    HoldsSplit(data, k + 2, LtwPart(e), afterLtw);
    HoldsSplit(data, k + 2 + |LtwPart(e)|, RatePart(e), SeamlessPart(e) + e.reserved);
    HoldsSplit(data, k + 2 + |LtwPart(e)| + |RatePart(e)|, SeamlessPart(e), e.reserved);
  }

  lemma {:induction false} ExtensionRoundTrip(data: seq<byte>, k: nat, e: ExtensionSource)
    requires UsableLength(data) && ValidExtension(e)
    requires Holds(data, k, EncodeExtension(e)) && k + |EncodeExtension(e)| <= 1 + data[0]
    ensures ExtensionFits(data, k)
    ensures ExtensionOf(data, k) == MeaningOfExtension(e)
  {
    hide EncodeLtw, EncodeRate, EncodeSeamless, LtwOffset, PiecewiseRate, DtsNextAu, Holds, ExtensionFlags;
    ExtensionPlaces(data, k, e);
    UnpackExtensionFlags(e);
    var r := k + 2 + |LtwPart(e)|;
    if e.ltw.Some? {
      HeldLtw(data, k + 2, e.ltw.value);
    }
    if e.rate.Some? {
      HeldRate(data, r, e.rate.value);
    }
    if e.seamless.Some? {
      HeldSeamless(data, r + |RatePart(e)|, e.seamless.value);
    }
  }

  lemma UnpackNibble(a: nat, b: nat, c: nat, d: nat)
    requires a < 2 && b < 2 && c < 2 && d < 2
    ensures var y := a * 8 + b * 4 + c * 2 + d; y < 16 && y / 8 == a && y / 4 % 2 == b && y / 2 % 2 == c && y % 2 == d
  {}

  lemma HighNibble(x: nat)
    ensures x / 128 == x / 16 / 8
    ensures x / 64 % 2 == x / 16 / 4 % 2
    ensures x / 32 % 2 == x / 16 / 2 % 2
  {}

  lemma UnpackHigh(x: nat, a: nat, b: nat, c: nat, d: nat)
    requires a < 2 && b < 2 && c < 2 && d < 2 && x / 16 == a * 8 + b * 4 + c * 2 + d
    ensures x / 128 == a && x / 64 % 2 == b && x / 32 % 2 == c && x / 16 % 2 == d
  {
    UnpackNibble(a, b, c, d);
    HighNibble(x);
  }

  lemma LowNibble(x: nat, q: nat, r: nat)
    requires x == 16 * q + r && r < 16
    ensures x / 8 == 2 * q + r / 8
    ensures x / 4 == 4 * q + r / 4
    ensures x / 2 == 8 * q + r / 2
  {}

  lemma Parity(q: nat, r: nat)
    ensures (2 * q + r) % 2 == r % 2
  {}

  /** The low four bits do not depend on the high ones. */
  lemma LowNibbleBits(x: nat, high: nat, low: nat)
    requires x == 16 * high + low && low < 16
    ensures x / 8 % 2 == low / 8 % 2
    ensures x / 4 % 2 == low / 4 % 2
    ensures x / 2 % 2 == low / 2 % 2
    ensures x % 2 == low % 2
  {
    LowNibble(x, high, low);
    Parity(high, low / 8);
    Parity(2 * high, low / 4);
    Parity(4 * high, low / 2);
    Parity(8 * high, low);
  }

  lemma UnpackLow(x: nat, high: nat, e: nat, f: nat, g: nat, h: nat)
    requires e < 2 && f < 2 && g < 2 && h < 2 && x == 16 * high + (e * 8 + f * 4 + g * 2 + h)
    ensures x / 8 % 2 == e && x / 4 % 2 == f && x / 2 % 2 == g && x % 2 == h
  {
    var low := e * 8 + f * 4 + g * 2 + h;
    UnpackNibble(e, f, g, h);
    LowNibbleBits(x, high, low);
  }

  lemma UnpackByte(x: nat, a: nat, b: nat, c: nat, d: nat, e: nat, f: nat, g: nat, h: nat)
    requires a < 2 && b < 2 && c < 2 && d < 2 && e < 2 && f < 2 && g < 2 && h < 2
    requires x == a * 128 + b * 64 + c * 32 + d * 16 + e * 8 + f * 4 + g * 2 + h
    ensures x / 128 == a && x / 64 % 2 == b && x / 32 % 2 == c && x / 16 % 2 == d
    ensures x / 8 % 2 == e && x / 4 % 2 == f && x / 2 % 2 == g && x % 2 == h
  {
    var high, low := a * 8 + b * 4 + c * 2 + d, e * 8 + f * 4 + g * 2 + h;
    assert x == high * 16 + low;
    LowBits(high, low, 16);
    UnpackHigh(x, a, b, c, d);
    UnpackLow(x, high, e, f, g, h);
  }

  lemma UnpackFlags(s: Source)
    ensures var f := FlagByte(s);
      && (f / 128 == 1 <==> s.discontinuity) && (f / 64 % 2 == 1 <==> s.randomAccess)
      && (f / 32 % 2 == 1 <==> s.elementaryStreamPriority) && (f / 16 % 2 == 1 <==> s.pcr.Some?)
      && (f / 8 % 2 == 1 <==> s.opcr.Some?) && (f / 4 % 2 == 1 <==> s.splice.Some?)
      && (f / 2 % 2 == 1 <==> s.privateData.Some?) && (f % 2 == 1 <==> s.extension.Some?)
  {
    hide Flag;
    UnpackByte(FlagByte(s), Flag(s.discontinuity), Flag(s.randomAccess), Flag(s.elementaryStreamPriority), Flag(s.pcr.Some?),
               Flag(s.opcr.Some?), Flag(s.splice.Some?), Flag(s.privateData.Some?), Flag(s.extension.Some?));
  }

  lemma FirstPlaces(data: seq<byte>, s: Source)
    requires ValidSource(s) && Holds(data, 0, Encode(s))
    ensures |data| > 1 && data[0] == |Body(s)| == 1 + |Parts(s)| && data[1] == FlagByte(s)
    ensures Holds(data, 2, Parts(s))
  {
    hide Holds, FlagByte, Parts;
    HoldsByte(data, 0, Encode(s), 0);
    HoldsByte(data, 0, Encode(s), 1);
    HoldsLength(data, 0, Encode(s));
    HoldsSplit(data, 0, [|Body(s)|], Body(s));
    HoldsSplit(data, 1, [FlagByte(s)], Parts(s));
  }

  /** The parts of a field are where the parser looks for them. */
  lemma Places(data: seq<byte>, s: Source)
    requires ValidSource(s) && Holds(data, 0, Encode(s))
    ensures |data| > 1 && data[0] == |Body(s)| && data[1] == FlagByte(s)
    ensures Holds(data, 2, PcrPart(s)) && Holds(data, 2 + |PcrPart(s)|, OpcrPart(s))
    ensures var k := 2 + |PcrPart(s)| + |OpcrPart(s)|;
      && Holds(data, k, SplicePart(s))
      && Holds(data, k + |SplicePart(s)|, PrivatePart(s))
      && Holds(data, k + |SplicePart(s)| + |PrivatePart(s)|, ExtensionPart(s))
      && k + |SplicePart(s)| + |PrivatePart(s)| + |ExtensionPart(s)| + |s.stuffing| == 1 + data[0]
  {
    hide Holds, FlagByte, PcrPart, OpcrPart, SplicePart, PrivatePart, ExtensionPart, Body, Encode;
    FirstPlaces(data, s);
    var e := ExtensionPart(s) + s.stuffing;
    var q := SplicePart(s) + (PrivatePart(s) + e);
    HoldsSplit(data, 2, PcrPart(s), OpcrPart(s) + q);
    HoldsSplit(data, 2 + |PcrPart(s)|, OpcrPart(s), q);
    var k := 2 + |PcrPart(s)| + |OpcrPart(s)|;
    HoldsSplit(data, k, SplicePart(s), PrivatePart(s) + e);
    HoldsSplit(data, k + |SplicePart(s)|, PrivatePart(s), e);
    HoldsSplit(data, k + |SplicePart(s)| + |PrivatePart(s)|, ExtensionPart(s), s.stuffing);
  }

  lemma FlagsMeaning(data: seq<byte>, s: Source)
    requires UsableLength(data) && data[1] == FlagByte(s)
    ensures PcrFlag(data) == s.pcr.Some? && OpcrFlag(data) == s.opcr.Some? && SpliceFlag(data) == s.splice.Some?
    ensures PrivateFlag(data) == s.privateData.Some? && ExtensionFlag(data) == s.extension.Some?
    ensures Flags(data) == AdaptationField(data[0], s.discontinuity, s.randomAccess, s.elementaryStreamPriority,
                                           s.pcr.Some?, s.opcr.Some?, s.splice.Some?, s.privateData.Some?, s.extension.Some?,
                                           0, 0, 0, 0, NO_EXTENSION)
  {
    hide FlagByte;
    UnpackFlags(s);
  }

  /** The clock references' bytes are the slices that the parser takes. */
  lemma ClocksRoundTrip(data: seq<byte>, s: Source)
    requires ValidParts(s) && Holds(data, 2, PcrPart(s)) && Holds(data, 2 + |PcrPart(s)|, OpcrPart(s))
    ensures s.pcr.Some? ==> |data| >= 8 && data[2..8] == s.pcr.value
    ensures s.opcr.Some? ==> var k := 2 + |PcrPart(s)|; |data| >= k + 6 && data[k..k + 6] == s.opcr.value
  {}

  /** The parts before the extension. */
  lemma FixedRoundTrip(data: seq<byte>, s: Source)
    requires ValidSource(s) && Holds(data, 0, Encode(s))
    ensures Readable(data) && UsableLength(data) && data[0] == |Body(s)| && ExtensionFlag(data) == s.extension.Some?
    ensures FixedPartFits(data) && ExtensionAt(data) + |ExtensionPart(s)| <= 1 + data[0]
    ensures Holds(data, ExtensionAt(data), ExtensionPart(s))
    ensures FixedPart(data) == Meaning(s).(extension := NO_EXTENSION)
  {
    hide Holds, FlagByte, ClockOf, ExtensionPart, MeaningOfExtension, PcrFlag, OpcrFlag, SpliceFlag, PrivateFlag,
         ExtensionFlag, Flags;
    Places(data, s);
    HoldsLength(data, 0, Encode(s));
    FlagsMeaning(data, s);
    var k := 2 + |PcrPart(s)| + |OpcrPart(s)|;
    assert k == SpliceAt(data) && k + |SplicePart(s)| == PrivateAt(data);
    ClocksRoundTrip(data, s);
    if s.splice.Some? {
      HoldsByte(data, k, SplicePart(s), 0);
    }
    if s.privateData.Some? {
      HoldsByte(data, k + |SplicePart(s)|, PrivatePart(s), 0);
    }
  }

  lemma PrefixHolds(data: seq<byte>, s: seq<byte>)
    requires s <= data
    ensures Holds(data, 0, s)
  {}

  /** Every encoded field with a flag byte fits and is parsed back, whatever follows it. */
  lemma {:induction false} SourceRoundTrip(data: seq<byte>, s: Source)
    requires ValidSource(s) && Encode(s) <= data
    ensures Readable(data) && Fits(data) && Parsed(data) == Meaning(s)
  {
    hide Holds, Encode, Body, EncodeExtension, FixedPart, FixedPartFits, ExtensionAt, ExtensionFits, ExtensionOf,
         MeaningOfExtension, ExtensionFlag;
    PrefixHolds(data, Encode(s));
    FixedRoundTrip(data, s);
    if s.extension.Some? {
      ExtensionRoundTrip(data, ExtensionAt(data), s.extension.value);
    }
  }

  // ---------------------------------------------------------------- clock references

  /** A clock reference: a 33-bit base, six reserved bits, a 9-bit extension. */
  datatype Clock = Clock(base: nat, reserved: nat, extension: nat)

  predicate ValidClock(c: Clock) {
    c.base < 0x2_0000_0000 && c.reserved < 64 && c.extension < 512
  }

  function EncodeClock(c: Clock): (s: seq<byte>)
    requires ValidClock(c)
    ensures |s| == 6
  {
    var high := c.base / 2;
    [high / 0x100_0000, high / 0x1_0000 % 256, high / 256 % 256, high % 256,
     c.base % 2 * 128 + c.reserved * 2 + c.extension / 256, c.extension % 256]
  }

  lemma SplitWord(w: nat)
    ensures ((w / 0x100_0000 * 256 + w / 0x1_0000 % 256) * 256 + w / 256 % 256) * 256 + w % 256 == w
  {}

  lemma UnpackFifth(a: nat, r: nat, e: nat)
    requires a < 2 && r < 64 && e < 2
    ensures var b := a * 128 + r * 2 + e; b / 128 == a && b % 2 == e
  {}

  lemma {:induction false} OrBound(a: nat, b: nat, k: nat)
    requires a < BitReader.Pow2(k) && b < BitReader.Pow2(k)
    ensures BitReader.BitOr(a, b) < BitReader.Pow2(k)
    decreases k
  {
    if k > 0 {
      OrBound(a / 2, b / 2, k - 1);
    }
  }

  lemma OrNone(b: nat)
    ensures BitReader.BitOr(0, b) == b
  {}

  lemma LowPart(e: nat)
    requires e < 512
    ensures BitReader.BitOr(e / 256 * 2, e % 256) == e <==> e < 256
    ensures 0 <= BitReader.BitOr(e / 256 * 2, e % 256) < 256
  {
    hide BitReader.BitOr;
    assert BitReader.Pow2(8) == 256;
    OrBound(e / 256 * 2, e % 256, 8);
    OrNone(e % 256);
  }

  /**
   The program's clock value is the standard's 42 bits - base, then extension - exactly if the
   base is below 2^32 and the extension below 256.
   */
  lemma {:induction false} ClockExactly(c: Clock)
    requires ValidClock(c)
    ensures ClockOf(EncodeClock(c)) == c.base * 512 + c.extension <==> c.base < 0x1_0000_0000 && c.extension < 256
  {
    hide BitReader.BitOr;
    var high := c.base / 2;
    SplitWord(high);
    UnpackFifth(c.base % 2, c.reserved, c.extension / 256);
    LowPart(c.extension);
  }

  /** Clock references that the program gets wrong: an extension of 256, and a base of 2^32. */
  lemma {:induction false} ClockFails()
    ensures ClockOf(EncodeClock(Clock(0, 0, 256))) != 256
    ensures ClockOf(EncodeClock(Clock(0x1_0000_0000, 0, 0))) != 0x1_0000_0000 * 512
  {
    hide ClockOf, EncodeClock;
    ClockExactly(Clock(0, 0, 256));
    ClockExactly(Clock(0x1_0000_0000, 0, 0));
  }

  // ---------------------------------------------------------------- nothing else is accepted

  /** An extension of length zero, which the standard does not have: accepted if the next byte has no flag set. */
  predicate EmptyExtension(data: seq<byte>) {
    && UsableLength(data) && FixedPartFits(data) && ExtensionFlag(data)
    && var k := ExtensionAt(data); k + 2 <= 1 + data[0] && data[k] == 0 && ExtensionNeeds(data[k + 1]) == 0
  }

  function LtwOf(b0: byte, b1: byte): (l: Ltw)
    ensures ValidLtw(l) && EncodeLtw(l) == [b0, b1]
  {
    Ltw(b0 / 128 == 1, LtwOffset(b0, b1))
  }

  lemma PackRate(high: nat, b1: byte, b2: byte)
    requires high < 64
    ensures var v := high * 65536 + b1 * 256 + b2; v / 65536 == high && v / 256 % 256 == b1 && v % 256 == b2
  {}

  lemma PackPair(b: byte)
    ensures b / 64 < 4 && b == b / 64 * 64 + b % 64
  {}

  function RateOf(b0: byte, b1: byte, b2: byte): (r: Rate)
    ensures ValidRate(r) && EncodeRate(r) == [b0, b1, b2]
  {
    PackRate(b0 % 64, b1, b2);
    PackPair(b0);
    Rate(b0 / 64, PiecewiseRate(b0, b1, b2))
  }

  lemma PackSeamless(b0: byte, b1: byte, b2: byte, b3: byte, b4: byte)
    ensures var d := DtsNextAu(b0, b1, b2, b3, b4);
      && d / 32768 == b0 / 2 % 8 * 32768 + b1 * 128 + b2 / 2
      && d % 32768 == b3 * 128 + b4 / 2
  {}

  lemma PackHigh(a: nat, b: byte, c: nat)
    requires a < 8 && c < 128
    ensures var h := a * 32768 + b * 128 + c; h / 32768 == a && h / 128 % 256 == b && h % 128 == c
  {}

  lemma PackFirst(b: byte)
    ensures b == b / 16 * 16 + b / 2 % 8 * 2 + b % 2
  {}

  function SeamlessOf(b0: byte, b1: byte, b2: byte, b3: byte, b4: byte): (s: Seamless)
    ensures ValidSeamless(s) && EncodeSeamless(s) == [b0, b1, b2, b3, b4]
  {
    PackSeamless(b0, b1, b2, b3, b4);
    PackHigh(b0 / 2 % 8, b1, b2 / 2);
    PackFirst(b0);
    Seamless(b0 / 16, DtsNextAu(b0, b1, b2, b3, b4), b0 % 2, b2 % 2, b4 % 2)
  }

  function ExtensionSourceOf(data: seq<byte>, k: nat): (e: ExtensionSource)
    requires UsableLength(data) && ExtensionFits(data, k) && data[k] > 0
    ensures ValidExtension(e)
  {
    var flags := data[k + 1];
    var r := k + 2 + If(flags / 128 == 1, 2);
    var s := r + If(flags / 64 % 2 == 1, 3);
    var t := s + If(flags / 32 % 2 == 1, 5);
    ExtensionSource(flags % 32,
                    if flags / 128 == 1 then Some(LtwOf(data[k + 2], data[k + 3])) else None,
                    if flags / 64 % 2 == 1 then Some(RateOf(data[r], data[r + 1], data[r + 2])) else None,
                    if flags / 32 % 2 == 1
                    then Some(SeamlessOf(data[s], data[s + 1], data[s + 2], data[s + 3], data[s + 4])) else None,
                    data[t..k + 1 + data[k]])
  }

  lemma PackExtensionFlags(b: byte)
    ensures b == b / 128 * 128 + b / 64 % 2 * 64 + b / 32 % 2 * 32 + b % 32
  {}

  lemma SliceJoin(data: seq<byte>, a: nat, b: nat, c: nat)
    requires a <= b <= c <= |data|
    ensures data[a..b] + data[b..c] == data[a..c]
  {}

  /** Four consecutive slices make up the whole. */
  lemma JoinSlices(data: seq<byte>, a: nat, b: nat, c: nat, d: nat, e: nat)
    requires a <= b <= c <= d <= e <= |data|
    ensures data[a..b] + (data[b..c] + (data[c..d] + data[d..e])) == data[a..e]
  {
    SliceJoin(data, c, d, e);
    SliceJoin(data, b, c, e);
    SliceJoin(data, a, b, e);
  }

  lemma FirstByte(data: seq<byte>, a: nat, b: nat)
    requires a < b <= |data|
    ensures [data[a]] + data[a + 1..b] == data[a..b]
  {}

  lemma TwoBytes(data: seq<byte>, a: nat)
    requires a + 2 <= |data|
    ensures data[a..a + 2] == [data[a], data[a + 1]]
  {}

  lemma ThreeBytes(data: seq<byte>, a: nat)
    requires a + 3 <= |data|
    ensures data[a..a + 3] == [data[a], data[a + 1], data[a + 2]]
  {}

  lemma FiveBytes(data: seq<byte>, a: nat)
    requires a + 5 <= |data|
    ensures data[a..a + 5] == [data[a], data[a + 1], data[a + 2], data[a + 3], data[a + 4]]
  {}

  /** The parts of the extension are consecutive slices of the data. */
  lemma ExtensionPartsEncoded(data: seq<byte>, k: nat, r: nat, s: nat, t: nat)
    requires UsableLength(data) && ExtensionFits(data, k) && data[k] > 0
    requires r == k + 2 + If(data[k + 1] / 128 == 1, 2)
    requires s == r + If(data[k + 1] / 64 % 2 == 1, 3)
    requires t == s + If(data[k + 1] / 32 % 2 == 1, 5)
    ensures t <= k + 1 + data[k] <= |data|
    ensures var e := ExtensionSourceOf(data, k);
      && LtwPart(e) == data[k + 2..r] && RatePart(e) == data[r..s] && SeamlessPart(e) == data[s..t]
      && e.reserved == data[t..k + 1 + data[k]]
  {
    hide LtwOf, RateOf, SeamlessOf, ValidLtw, ValidRate, ValidSeamless, EncodeLtw, EncodeRate, EncodeSeamless;
    if data[k + 1] / 128 == 1 {
      TwoBytes(data, k + 2);
    }
    if data[k + 1] / 64 % 2 == 1 {
      ThreeBytes(data, r);
    }
    if data[k + 1] / 32 % 2 == 1 {
      FiveBytes(data, s);
    }
  }

  lemma ExtensionFlagSum(e: ExtensionSource, a: nat, b: nat, c: nat, d: nat)
    requires ValidExtension(e)
    requires Flag(e.ltw.Some?) == a && Flag(e.rate.Some?) == b && Flag(e.seamless.Some?) == c && e.reservedBits == d
    ensures ExtensionFlags(e) == a * 128 + b * 64 + c * 32 + d
  {
    hide Flag;
  }

  lemma ExtensionFlagsEncoded(data: seq<byte>, k: nat)
    requires UsableLength(data) && ExtensionFits(data, k) && data[k] > 0
    ensures ExtensionFlags(ExtensionSourceOf(data, k)) == data[k + 1]
  {
    hide LtwOf, RateOf, SeamlessOf, ValidExtension;
    var b := data[k + 1];
    PackExtensionFlags(b);
    ExtensionFlagSum(ExtensionSourceOf(data, k), b / 128, b / 64 % 2, b / 32 % 2, b % 32);
  }

  /** A fitting extension is the encoding of what it says. */
  lemma ExtensionEncoded(data: seq<byte>, k: nat)
    requires UsableLength(data) && ExtensionFits(data, k) && data[k] > 0
    ensures EncodeExtension(ExtensionSourceOf(data, k)) == data[k..k + 1 + data[k]]
  {
    hide ExtensionSourceOf, LtwPart, RatePart, SeamlessPart, ExtensionFlags, ValidExtension, ExtensionNeeds;
    var e, end := ExtensionSourceOf(data, k), k + 1 + data[k];
    var r := k + 2 + If(data[k + 1] / 128 == 1, 2);
    var s := r + If(data[k + 1] / 64 % 2 == 1, 3);
    var t := s + If(data[k + 1] / 32 % 2 == 1, 5);
    ExtensionFlagsEncoded(data, k);
    ExtensionPartsEncoded(data, k, r, s, t);
    JoinSlices(data, k + 2, r, s, t, end);
    FirstByte(data, k + 1, end);
    FirstByte(data, k, end);
  }

  function ExtensionEnd(data: seq<byte>): (t: nat)
    requires Readable(data) && Fits(data)
    ensures ExtensionAt(data) <= t <= 1 + data[0]
  {
    var k := ExtensionAt(data);
    if ExtensionFlag(data) then k + 1 + data[k] else k
  }

  function SourceOf(data: seq<byte>): (s: Source)
    requires Readable(data) && Fits(data) && !EmptyExtension(data)
    ensures ValidParts(s)
  {
    var opcrAt, k := 2 + If(PcrFlag(data), 6), ExtensionAt(data);
    Source(data[1] / 128 == 1, data[1] / 64 % 2 == 1, data[1] / 32 % 2 == 1,
           if PcrFlag(data) then Some(data[2..8]) else None,
           if OpcrFlag(data) then Some(data[opcrAt..opcrAt + 6]) else None,
           if SpliceFlag(data) then Some(data[SpliceAt(data)]) else None,
           if PrivateFlag(data) then Some(data[PrivateAt(data) + 1..k]) else None,
           if ExtensionFlag(data) then Some(ExtensionSourceOf(data, k)) else None,
           data[ExtensionEnd(data)..1 + data[0]])
  }

  lemma NibbleBits(n: nat)
    requires n < 16
    ensures n == n / 8 * 8 + n / 4 % 2 * 4 + n / 2 % 2 * 2 + n % 2
  {}

  lemma PackHighNibble(b: nat)
    requires b < 256
    ensures b / 16 == b / 128 * 8 + b / 64 % 2 * 4 + b / 32 % 2 * 2 + b / 16 % 2
  {
    NibbleBits(b / 16);
    HighNibble(b);
  }

  lemma PackLowNibble(b: nat)
    ensures b % 16 == b / 8 % 2 * 8 + b / 4 % 2 * 4 + b / 2 % 2 * 2 + b % 2
  {
    NibbleBits(b % 16);
    LowNibbleBits(b, b / 16, b % 16);
  }

  lemma PackByte(b: nat, x: nat, y: nat)
    requires x == b / 16 && y == b % 16
    ensures b == x * 16 + y
  {}

  lemma FlagSum(s: Source, a: nat, b: nat, c: nat, d: nat, e: nat, f: nat, g: nat, h: nat)
    requires Flag(s.discontinuity) == a && Flag(s.randomAccess) == b && Flag(s.elementaryStreamPriority) == c
    requires Flag(s.pcr.Some?) == d && Flag(s.opcr.Some?) == e && Flag(s.splice.Some?) == f
    requires Flag(s.privateData.Some?) == g && Flag(s.extension.Some?) == h
    ensures FlagByte(s) == (a * 8 + b * 4 + c * 2 + d) * 16 + (e * 8 + f * 4 + g * 2 + h)
  {
    hide Flag;
  }

  lemma FlagsEncoded(data: seq<byte>)
    requires Readable(data) && Fits(data) && !EmptyExtension(data)
    ensures FlagByte(SourceOf(data)) == data[1]
  {
    hide ExtensionSourceOf, ExtensionFits, EmptyExtension, FixedPartFits, SpliceAt, PrivateAt, ExtensionAt, FlagByte;
    var x := data[1];
    PackHighNibble(x);
    PackLowNibble(x);
    PackByte(x, x / 16, x % 16);
    FlagSum(SourceOf(data), x / 128, x / 64 % 2, x / 32 % 2, x / 16 % 2, x / 8 % 2, x / 4 % 2, x / 2 % 2, x % 2);
  }

  lemma PrivateEncoded(data: seq<byte>)
    requires Readable(data) && Fits(data) && !EmptyExtension(data)
    ensures PrivatePart(SourceOf(data)) == data[PrivateAt(data)..ExtensionAt(data)]
  {
    hide ExtensionSourceOf, PcrFlag, OpcrFlag, SpliceFlag, PrivateFlag, ExtensionFlag, ExtensionFits, EmptyExtension,
         SpliceAt, PrivateAt;
    if PrivateFlag(data) {
      SliceJoin(data, PrivateAt(data), PrivateAt(data) + 1, ExtensionAt(data));
    }
  }

  lemma ExtensionPartEncoded(data: seq<byte>)
    requires Readable(data) && Fits(data) && !EmptyExtension(data)
    ensures ExtensionPart(SourceOf(data)) == data[ExtensionAt(data)..ExtensionEnd(data)]
  {
    hide EncodeExtension, ExtensionSourceOf, PcrFlag, OpcrFlag, SpliceFlag, PrivateFlag, ExtensionFlag, ValidExtension,
         SpliceAt, PrivateAt, ExtensionAt;
    if ExtensionFlag(data) {
      ExtensionEncoded(data, ExtensionAt(data));
    }
  }

  /** The parts of the source are consecutive slices of the data. */
  lemma PartsEncoded(data: seq<byte>)
    requires Readable(data) && Fits(data) && !EmptyExtension(data)
    ensures var s, opcrAt, t := SourceOf(data), 2 + If(PcrFlag(data), 6), ExtensionEnd(data);
      && opcrAt <= SpliceAt(data) <= PrivateAt(data) <= ExtensionAt(data) <= t
      && PcrPart(s) == data[2..opcrAt]
      && OpcrPart(s) == data[opcrAt..SpliceAt(data)]
      && SplicePart(s) == data[SpliceAt(data)..PrivateAt(data)]
      && PrivatePart(s) == data[PrivateAt(data)..ExtensionAt(data)]
      && ExtensionPart(s) == data[ExtensionAt(data)..t]
      && s.stuffing == data[t..1 + data[0]]
  {
    hide EncodeExtension, ExtensionSourceOf, PcrFlag, OpcrFlag, SpliceFlag, PrivateFlag, ExtensionFlag, ValidExtension;
    hide ExtensionFits, EmptyExtension, PrivatePart, ExtensionPart;
    PrivateEncoded(data);
    ExtensionPartEncoded(data);
    if SpliceFlag(data) {
      assert data[SpliceAt(data)..PrivateAt(data)] == [data[SpliceAt(data)]];
    }
  }

  /** A field that fits is the encoding of what it says. */
  lemma {:induction false} FieldEncoded(data: seq<byte>)
    requires Readable(data) && Fits(data) && !EmptyExtension(data)
    ensures ValidSource(SourceOf(data)) && Encode(SourceOf(data)) == data[..1 + data[0]]
  {
    hide SourceOf, FlagByte, PcrPart, OpcrPart, SplicePart, PrivatePart, ExtensionPart, EmptyExtension, ExtensionFits,
         SpliceAt, PrivateAt, ExtensionAt, PcrFlag, ExtensionFlag, ExtensionEnd, FixedPartFits, ValidParts;
    var s, end := SourceOf(data), 1 + data[0];
    var opcrAt, k, t := 2 + If(PcrFlag(data), 6), ExtensionAt(data), ExtensionEnd(data);
    FlagsEncoded(data);
    PartsEncoded(data);
    JoinSlices(data, SpliceAt(data), PrivateAt(data), k, t, end);
    SliceJoin(data, opcrAt, SpliceAt(data), end);
    SliceJoin(data, 2, opcrAt, end);
    FirstByte(data, 1, end);
    FirstByte(data, 0, end);
  }

  lemma BodyNotEmpty(e: ExtensionSource)
    requires ValidExtension(e)
    ensures |ExtensionBody(e)| >= 1 && EncodeExtension(e)[0] == |ExtensionBody(e)|
  {}

  /** An encoded extension is never empty: it has its flag byte. */
  lemma {:induction false} EncodedIsNotEmpty(data: seq<byte>, s: Source)
    requires ValidSource(s) && Encode(s) <= data
    ensures !EmptyExtension(data)
  {
    hide Holds, Encode, Body, ExtensionBody, FixedPart, FixedPartFits, ExtensionAt, ExtensionFlag, ExtensionNeeds;
    PrefixHolds(data, Encode(s));
    FixedRoundTrip(data, s);
    if s.extension.Some? {
      BodyNotEmpty(s.extension.value);
      HoldsByte(data, ExtensionAt(data), EncodeExtension(s.extension.value), 0);
    }
  }

  // ---------------------------------------------------------------- all fields of the standard

  /** A field is a single zero length byte, which stuffs one byte, or has a flag byte. */
  datatype Field = OneByte | Full(source: Source)

  predicate ValidField(f: Field) {
    f.Full? ==> ValidSource(f.source)
  }

  function EncodeField(f: Field): seq<byte>
    requires ValidField(f)
  {
    if f.OneByte? then [0] else Encode(f.source)
  }

  /** The single byte announces nothing. */
  function MeaningOfField(f: Field): AdaptationField
    requires ValidField(f)
  {
    if f.OneByte? then ZERO else Meaning(f.source)
  }

  /** What the parser makes of any bytes. */
  function Result(data: seq<byte>): AdaptationField
    requires Readable(data)
  {
    if Fits(data) then Parsed(data) else ZERO
  }

  ghost predicate WellFormed(data: seq<byte>) {
    exists f :: ValidField(f) && EncodeField(f) <= data
  }

  /** Every field of the standard is parsed back, whatever follows it. */
  lemma {:induction false} RoundTrip(data: seq<byte>, f: Field)
    requires ValidField(f) && EncodeField(f) <= data
    ensures Readable(data) && Result(data) == MeaningOfField(f)
    ensures Fits(data) <==> f.Full?
  {
    hide ValidSource, Encode, Parsed, Meaning;
    if f.Full? {
      SourceRoundTrip(data, f.source);
    }
  }

  lemma EmptyFits(data: seq<byte>)
    requires Readable(data) && EmptyExtension(data)
    ensures Fits(data)
  {}

  /**
   The fields of the standard are the single zero byte and what the parser accepts, apart from
   fields with an empty extension; those it accepts too, and they are no field of the standard.
   */
  lemma {:induction false} AcceptedExactly(data: seq<byte>)
    requires Readable(data)
    ensures WellFormed(data) <==> data[0] == 0 || (Fits(data) && !EmptyExtension(data))
    ensures EmptyExtension(data) ==> Fits(data) && !WellFormed(data)
  {
    hide ValidSource, Encode, EmptyExtension, Parsed, Meaning;
    if EmptyExtension(data) {
      EmptyFits(data);
    }
    if Fits(data) && !EmptyExtension(data) {
      FieldEncoded(data);
      assert data[..1 + data[0]] <= data;
      assert ValidField(Full(SourceOf(data))) && EncodeField(Full(SourceOf(data))) <= data;
    }
    if data[0] == 0 {
      assert ValidField(OneByte) && EncodeField(OneByte) <= data;
    }
    if f :| ValidField(f) && EncodeField(f) <= data {
      RoundTrip(data, f);
      if f.Full? {
        EncodedIsNotEmpty(data, f.source);
      }
    }
  }

  /** Such a field exists. */
  lemma EmptyExtensionExists()
    ensures var data := [3, 1, 0, 0]; EmptyExtension(data) && Fits(data) && !WellFormed(data)
  {
    var data: seq<byte> := [3, 1, 0, 0];
    assert Readable(data) && PrivateAt(data) == 2;
    AcceptedExactly(data);
  }
}
