/**
 The event information table decoder of m2tlib/eit.c (section 5.2.4 of ETSI EN 300 468):
 events that contain loops of descriptors.  The linked lists are kept as sequences.
 */
module Eit {
  import opened Bytes
  import opened BitReader
  import opened Calendar
  import opened Sections

  const MAX_EVENTS: nat := 100
  const MAX_DESCRIPTORS: nat := 100

  datatype Descriptor = Descriptor(tag: nat, length: nat, payload: seq<byte>)

  /** TS_EIT_EVENTS; the duration in seconds is kept beside the events. */
  datatype Event = Event(
    eventId: nat,
    startTime: seq<byte>,
    startTm: Tm,
    duration: nat,
    runningStatus: nat,
    freeCaMode: nat,
    loopLength: nat,
    descriptors: seq<Descriptor>)

  /** The rest of the EIT header. */
  datatype Tail = Tail(transportStreamId: nat, originalNetworkId: nat, segmentLast: nat, lastTableId: nat)

  datatype TsEit = TsEit(header: SectionHeader, tail: Tail, events: seq<Event>)

  // ---------------------------------------------------------------- specification of the C program

  function TailAt(mem: Memory): Tail {
    Tail(U16(mem, 8), U16(mem, 10), mem.At(12), mem.At(13))
  }

  predicate ValidEit(h: SectionHeader) {
    (h.tableId == 0x4E || 0x50 <= h.tableId <= 0x5F) && h.syntax == 1 && h.length <= 4093
  }

  function DescriptorAt(mem: Memory, k: nat): Descriptor {
    Descriptor(mem.At(k), mem.At(k + 1), mem.Slice(k + 2, mem.At(k + 1)))
  }

  /** The time in five bytes. */
  function TimeOf(start: seq<byte>): Tm
    requires |start| == 5
  {
    TimeAt(Memory(start, _ => 0))
  }

  /** The fixed part of an event. */
  function EventAt(mem: Memory, k: nat): Event {
    Event(U16(mem, k), mem.Slice(k + 2, 5), TimeOf(mem.Slice(k + 2, 5)), U24(mem, k + 7),
          mem.At(k + 10) / 32, mem.At(k + 10) / 16 % 2, Field12(mem, k + 10), [])
  }

  /** The inner loop from its `j`-th turn on: the descriptors and the byte it stops at. */
  function DescriptorsFrom(mem: Memory, k: nat, loaded: nat, loop: nat, j: nat): (seq<Descriptor>, nat)
    requires j <= MAX_DESCRIPTORS
    decreases MAX_DESCRIPTORS - j
  {
    if j == MAX_DESCRIPTORS || loaded >= loop then ([], k)
    else
      var d := DescriptorAt(mem, k);
      var (rest, next) := DescriptorsFrom(mem, k + 2 + d.length, loaded + d.length + 2, loop, j + 1);
      ([d] + rest, next)
  }

  /** The outer loop from its `i`-th turn on. */
  function EventsFrom(mem: Memory, k: nat, loaded: nat, length: nat, i: nat): seq<Event>
    requires i <= MAX_EVENTS
    decreases MAX_EVENTS - i
  {
    if i == MAX_EVENTS || loaded >= length then []
    else
      var e := EventAt(mem, k);
      if e.loopLength > length then []
      else
        var (ds, next) := DescriptorsFrom(mem, k + 12, 0, e.loopLength, 0);
        [e.(descriptors := ds)] + EventsFrom(mem, next, loaded + 12 + e.loopLength, length, i + 1)
  }

  // ---------------------------------------------------------------- the duration in seconds

  /** Hours, minutes and seconds in packed decimal. */
  function Seconds(h: byte, m: byte, s: byte): nat {
    HexToDigi(h) * 3600 + HexToDigi(m) * 60 + HexToDigi(s)
  }

  /** The three bytes of a duration. */
  function DurationByte(duration: nat, i: nat): byte
    requires i < 3
  {
    if i == 0 then duration / 65536 % 256 else if i == 1 then duration / 256 % 256 else duration % 256
  }

  /** A possible value: the three reads of one expression happen in an order that C leaves open. */
  predicate PossibleSeconds(seconds: nat, duration: nat) {
    var a, b, c := DurationByte(duration, 0), DurationByte(duration, 1), DurationByte(duration, 2);
    || seconds == Seconds(a, b, c) || seconds == Seconds(a, c, b) || seconds == Seconds(b, a, c)
    || seconds == Seconds(b, c, a) || seconds == Seconds(c, a, b) || seconds == Seconds(c, b, a)
  }

  predicate AllPossible(seconds: seq<nat>, events: seq<Event>) {
    |seconds| == |events| && forall i :: 0 <= i < |events| ==> PossibleSeconds(seconds[i], events[i].duration)
  }

  lemma NonePossible()
    ensures AllPossible([], [])
  {}

  lemma OneMorePossible(seconds: seq<nat>, events: seq<Event>, s: nat, e: Event)
    requires AllPossible(seconds, events) && PossibleSeconds(s, e.duration)
    ensures AllPossible(seconds + [s], events + [e])
  {
    hide PossibleSeconds;
  }

  lemma SecondsOrder(x: nat, y: nat, z: nat)
    requires x < 100 && y < 100 && z < 100
    ensures y * 3600 + x * 60 + z == x * 3600 + y * 60 + z <==> x == y
    ensures x * 3600 + z * 60 + y == x * 3600 + y * 60 + z <==> y == z
  {}

  lemma DigitsBelow(b: byte)
    ensures HexToDigi(b) < 100
  {
    hide HexToDigi;
    HexToDigiValue(b);
  }

  /**
   The duration meant is one of the possible values, and the only one exactly if hours, minutes
   and seconds are the same number.
   */
  lemma {:induction false} SecondsDetermined(duration: nat)
    ensures var a, b, c := DurationByte(duration, 0), DurationByte(duration, 1), DurationByte(duration, 2);
      && PossibleSeconds(Seconds(a, b, c), duration)
      && ((forall s :: PossibleSeconds(s, duration) ==> s == Seconds(a, b, c))
          <==> HexToDigi(a) == HexToDigi(b) == HexToDigi(c))
  {
    hide HexToDigi, DurationByte;
    var a, b, c := DurationByte(duration, 0), DurationByte(duration, 1), DurationByte(duration, 2);
    DigitsBelow(a);
    DigitsBelow(b);
    DigitsBelow(c);
    SecondsOrder(HexToDigi(a), HexToDigi(b), HexToDigi(c));
    assert PossibleSeconds(Seconds(b, a, c), duration) && PossibleSeconds(Seconds(a, c, b), duration);
  }

  // ---------------------------------------------------------------- st_eit

  lemma HeaderTail(mem: Memory)
    ensures Bits(mem, 64, 16) == U16(mem, 8) && Bits(mem, 80, 16) == U16(mem, 10)
    ensures Bits(mem, 96, 8) == mem.At(12) && Bits(mem, 104, 8) == mem.At(13)
  {
    hide Bits;
    Field16(mem, 8);
    Field16(mem, 10);
    ByteNumber(mem, 12);
    ByteNumber(mem, 13);
  }

  lemma EventsStop(mem: Memory, k: nat, loaded: nat, length: nat, i: nat)
    requires i <= MAX_EVENTS
    requires i == MAX_EVENTS || loaded >= length || EventAt(mem, k).loopLength > length
    ensures EventsFrom(mem, k, loaded, length, i) == []
  {}

  lemma Regroup<T>(a: seq<T>, x: T, rest: seq<T>)
    ensures (a + [x]) + rest == a + ([x] + rest)
  {}

  lemma {:induction false} EventsStep(mem: Memory, k: nat, loaded: nat, length: nat, i: nat, before: seq<Event>)
    requires i < MAX_EVENTS && loaded < length && EventAt(mem, k).loopLength <= length
    ensures var e := EventAt(mem, k); var d := DescriptorsFrom(mem, k + 12, 0, e.loopLength, 0);
      EventsFrom(mem, k, loaded, length, i)
      == [e.(descriptors := d.0)] + EventsFrom(mem, d.1, loaded + 12 + e.loopLength, length, i + 1)
    ensures var e := EventAt(mem, k); var d := DescriptorsFrom(mem, k + 12, 0, e.loopLength, 0);
      before + EventsFrom(mem, k, loaded, length, i)
      == (before + [e.(descriptors := d.0)]) + EventsFrom(mem, d.1, loaded + 12 + e.loopLength, length, i + 1)
  {
    hide EventAt, DescriptorsFrom;
    var e := EventAt(mem, k);
    var d := DescriptorsFrom(mem, k + 12, 0, e.loopLength, 0);
    Regroup(before, e.(descriptors := d.0), EventsFrom(mem, d.1, loaded + 12 + e.loopLength, length, i + 1));
  }

  lemma DurationBytes(mem: Memory, k: nat)
    ensures DurationByte(U24(mem, k), 0) == mem.At(k)
    ensures DurationByte(U24(mem, k), 1) == mem.At(k + 1)
    ensures DurationByte(U24(mem, k), 2) == mem.At(k + 2)
  {}

  /** The duration, read once as a whole and once more byte by byte, in some order. */
  method ReadDuration(buf: Memory, start: nat) returns (duration: nat, seconds: nat, boff: nat)
    requires start % 8 == 0
    ensures duration == U24(buf, start / 8) && boff == start + 24
    ensures PossibleSeconds(seconds, duration)
  {
    hide Bits, Pow2, U24, HexToDigi;
    ghost var k := start / 8;
    Field24(buf, k);
    ByteNumber(buf, k);
    ByteNumber(buf, k + 1);
    ByteNumber(buf, k + 2);
    DurationBytes(buf, k);
    var first, second, third: nat;
    duration, boff := GetBit(buf, start, 24);
    boff := boff - 24;
    first, boff := GetBit(buf, boff, 8);
    second, boff := GetBit(buf, boff, 8);
    third, boff := GetBit(buf, boff, 8);
    var order: nat :| order < 6;
    seconds := if order == 0 then Seconds(first, second, third)
               else if order == 1 then Seconds(first, third, second)
               else if order == 2 then Seconds(second, first, third)
               else if order == 3 then Seconds(second, third, first)
               else if order == 4 then Seconds(third, first, second)
               else Seconds(third, second, first);
  }

  /** What lies behind the five bytes does not matter. */
  lemma TimeOfSlice(start: seq<byte>, beyond: nat -> byte)
    requires |start| == 5
    ensures TimeAt(Memory(start, beyond)) == TimeOf(start)
  {
    hide MjdToDate, HexToDigi;
  }

  lemma EventFields(mem: Memory, k: nat)
    ensures Bits(mem, 8 * k, 16) == U16(mem, k)
    ensures Bits(mem, 8 * k + 80, 3) == mem.At(k + 10) / 32
    ensures Bits(mem, 8 * k + 83, 1) == mem.At(k + 10) / 16 % 2
    ensures Bits(mem, 8 * k + 84, 12) == Field12(mem, k + 10)
  {
    hide Bits, U16, Field12;
    Field16(mem, k);
    FieldInByte(mem, k + 10, 0, 3);
    FieldInByte(mem, k + 10, 3, 1);
    Fields(mem, k + 10);
    assert Pow2(5) == 32 && Pow2(4) == 16 && Pow2(3) == 8 && Pow2(1) == 2;
  }

  /** The fixed part of an event. */
  method ReadEvent(buf: Memory, start: nat) returns (e: Event, seconds: nat, boff: nat)
    requires start % 8 == 0
    ensures e == EventAt(buf, start / 8)
    ensures PossibleSeconds(seconds, e.duration)
    ensures boff == start + 96
  {
    hide Bits, Pow2, TimeAt, TimeOf, ValidDate, Field12, U16, U24, PossibleSeconds;
    ghost var k := start / 8;
    EventFields(buf, k);
    TimeOfSlice(buf.Slice(k + 2, 5), buf.beyond);
    var eventId, duration, runningStatus, freeCaMode, loopLength: nat;
    eventId, boff := GetBit(buf, start, 16);
    var startTime := buf.Slice(boff / 8, 5);
    boff := boff + 40;
    var startTm := TimeToTm(Memory(startTime, buf.beyond));
    duration, seconds, boff := ReadDuration(buf, boff);
    runningStatus, boff := GetBit(buf, boff, 3);
    freeCaMode, boff := GetBit(buf, boff, 1);
    loopLength, boff := GetBit(buf, boff, 12);
    e := Event(eventId, startTime, startTm, duration, runningStatus, freeCaMode, loopLength, []);
  }

  lemma DescriptorsStop(mem: Memory, k: nat, loaded: nat, loop: nat, j: nat)
    requires j <= MAX_DESCRIPTORS && (j == MAX_DESCRIPTORS || loaded >= loop)
    ensures DescriptorsFrom(mem, k, loaded, loop, j) == ([], k)
  {}

  lemma DescriptorsStep(mem: Memory, k: nat, loaded: nat, loop: nat, j: nat, before: seq<Descriptor>)
    requires j < MAX_DESCRIPTORS && loaded < loop
    ensures var d := DescriptorAt(mem, k); var rest := DescriptorsFrom(mem, k + 2 + d.length, loaded + d.length + 2, loop, j + 1);
      && before + DescriptorsFrom(mem, k, loaded, loop, j).0 == (before + [d]) + rest.0
      && DescriptorsFrom(mem, k, loaded, loop, j).1 == rest.1
  {
    hide DescriptorAt;
    var d := DescriptorAt(mem, k);
    Regroup(before, d, DescriptorsFrom(mem, k + 2 + d.length, loaded + d.length + 2, loop, j + 1).0);
  }

  method ReadDescriptor(buf: Memory, start: nat) returns (d: Descriptor, boff: nat)
    requires start % 8 == 0
    ensures d == DescriptorAt(buf, start / 8)
    ensures boff == start + 8 * (2 + d.length)
  {
    hide Bits, Pow2;
    ghost var k := start / 8;
    ByteNumber(buf, k);
    ByteNumber(buf, k + 1);
    var tag, length: nat;
    tag, boff := GetBit(buf, start, 8);
    length, boff := GetBit(buf, boff, 8);
    var payload := buf.Slice(boff / 8, length);
    boff := boff + length * 8;
    d := Descriptor(tag, length, payload);
  }

  /** The inner loop. */
  method ReadDescriptors(buf: Memory, start: nat, loop: nat) returns (descriptors: seq<Descriptor>, boff: nat)
    requires start % 8 == 0
    ensures boff % 8 == 0
    ensures descriptors == DescriptorsFrom(buf, start / 8, 0, loop, 0).0
    ensures boff / 8 == DescriptorsFrom(buf, start / 8, 0, loop, 0).1
  {
    hide DescriptorAt, DescriptorsFrom;
    descriptors := [];
    boff := start;
    var loaded: nat := 0;
    var j := 0;
    ghost var k := start / 8;
    ghost var all := DescriptorsFrom(buf, k, 0, loop, 0);
    while j < MAX_DESCRIPTORS
      invariant j <= MAX_DESCRIPTORS && boff == 8 * k
      invariant descriptors + DescriptorsFrom(buf, k, loaded, loop, j).0 == all.0
      invariant DescriptorsFrom(buf, k, loaded, loop, j).1 == all.1
    {
      if loaded >= loop {
        DescriptorsStop(buf, k, loaded, loop, j);
        return;
      }
      DescriptorsStep(buf, k, loaded, loop, j, descriptors);
      var current: Descriptor;
      current, boff := ReadDescriptor(buf, boff);
      loaded := loaded + current.length + 2;
      descriptors := descriptors + [current];
      k := k + 2 + current.length;
      j := j + 1;
    }
    DescriptorsStop(buf, k, loaded, loop, j);
  }

  /** The outer loop. */
  method ReadEvents(buf: Memory, start: nat, length: nat) returns (events: seq<Event>, seconds: seq<nat>)
    requires start % 8 == 0
    ensures events == EventsFrom(buf, start / 8, 16, length, 0)
    ensures AllPossible(seconds, events)
  {
    hide EventAt, DescriptorsFrom, EventsFrom, AllPossible, PossibleSeconds;
    NonePossible();
    events, seconds := [], [];
    var boff := start;
    var loaded: nat := 11 + 5;
    var i := 0;
    ghost var k := start / 8;
    ghost var all := EventsFrom(buf, k, loaded, length, 0);
    while i < MAX_EVENTS
      invariant i <= MAX_EVENTS && boff == 8 * k
      invariant events + EventsFrom(buf, k, loaded, length, i) == all
      invariant AllPossible(seconds, events)
    {
      if loaded >= length {
        EventsStop(buf, k, loaded, length, i);
        return;
      }
      var current: Event, duration: nat;
      current, duration, boff := ReadEvent(buf, boff);
      if current.loopLength > length {
        EventsStop(buf, k, loaded, length, i);
        return;
      }
      EventsStep(buf, k, loaded, length, i, events);
      var descriptors: seq<Descriptor>;
      descriptors, boff := ReadDescriptors(buf, boff, current.loopLength);
      current := current.(descriptors := descriptors);
      OneMorePossible(seconds, events, duration, current);
      events, seconds := events + [current], seconds + [duration];
      loaded := loaded + 12 + current.loopLength;
      k := boff / 8;
      i := i + 1;
    }
    EventsStop(buf, k, loaded, length, i);
  }

  method StEit(buf: Memory) returns (out: TsEit, seconds: seq<nat>, r: int)
    ensures out.header == HeaderAt(buf)
    ensures out.tail == TailAt(buf)
    ensures r == 0 || r == 1
    ensures r == 1 <==> (out.header.tableId == 0x4E || 0x50 <= out.header.tableId <= 0x5F)
                        && out.header.syntax == 1 && out.header.length <= 4093
    ensures out.events == if r == 1 then EventsFrom(buf, 14, 16, out.header.length, 0) else []
    ensures AllPossible(seconds, out.events)
  {
    hide Bits, Pow2, HeaderAt, U16, EventsFrom, PossibleSeconds;
    var header, boff := ReadHeader(buf);
    var transportStreamId, originalNetworkId, segmentLast, lastTableId: nat;
    HeaderTail(buf);
    transportStreamId, boff := GetBit(buf, boff, 16);
    originalNetworkId, boff := GetBit(buf, boff, 16);
    segmentLast, boff := GetBit(buf, boff, 8);
    lastTableId, boff := GetBit(buf, boff, 8);
    out := TsEit(header, Tail(transportStreamId, originalNetworkId, segmentLast, lastTableId), []);
    if !ValidEit(header) {
      return out, [], 0;
    }
    var events;
    events, seconds := ReadEvents(buf, boff, header.length);
    out := out.(events := events);
    r := 1;
  }

  // ---------------------------------------------------------------- encoding

  datatype DescriptorSource = DescriptorSource(tag: nat, payload: seq<byte>)

  datatype EventSource = EventSource(
    eventId: nat,
    startTime: seq<byte>,
    duration: nat,
    runningStatus: nat,
    freeCaMode: nat,
    descriptors: seq<DescriptorSource>)

  predicate ValidDescriptors(ds: seq<DescriptorSource>) {
    forall i :: 0 <= i < |ds| ==> ds[i].tag < 256 && |ds[i].payload| < 256
  }

  function EncodeDescriptors(ds: seq<DescriptorSource>): seq<byte>
    requires ValidDescriptors(ds)
  {
    if ds == [] then [] else [ds[0].tag, |ds[0].payload|] + ds[0].payload + EncodeDescriptors(ds[1..])
  }

  predicate ValidEvent(e: EventSource) {
    && e.eventId < 65536 && |e.startTime| == 5 && e.duration < 0x100_0000 && e.runningStatus < 8 && e.freeCaMode < 2
    && ValidDescriptors(e.descriptors) && |EncodeDescriptors(e.descriptors)| < 4096
  }

  predicate ValidEvents(es: seq<EventSource>) {
    forall i :: 0 <= i < |es| ==> ValidEvent(es[i])
  }

  /** The seven bytes up to the start time, and the five after it. */
  function EncodeFixed(e: EventSource): (s: seq<byte>)
    requires ValidEvent(e)
    ensures |s| == 12
  {
    var n := |EncodeDescriptors(e.descriptors)|;
    [e.eventId / 256, e.eventId % 256] + e.startTime +
    [e.duration / 65536, e.duration / 256 % 256, e.duration % 256,
     e.runningStatus * 32 + e.freeCaMode * 16 + n / 256, n % 256]
  }

  function EncodeEvents(es: seq<EventSource>): seq<byte>
    requires ValidEvents(es)
  {
    if es == [] then [] else EncodeFixed(es[0]) + EncodeDescriptors(es[0].descriptors) + EncodeEvents(es[1..])
  }

  function DecodedDescriptors(ds: seq<DescriptorSource>): (r: seq<Descriptor>)
    ensures |r| == |ds|
  {
    if ds == [] then []
    else [Descriptor(ds[0].tag, |ds[0].payload|, ds[0].payload)] + DecodedDescriptors(ds[1..])
  }

  function DecodedEvent(e: EventSource): Event
    requires ValidEvent(e)
  {
    Event(e.eventId, e.startTime, TimeOf(e.startTime), e.duration, e.runningStatus, e.freeCaMode,
          |EncodeDescriptors(e.descriptors)|, DecodedDescriptors(e.descriptors))
  }

  function DecodedEvents(es: seq<EventSource>): (r: seq<Event>)
    requires ValidEvents(es)
    ensures |r| == |es|
    ensures forall i :: 0 <= i < |es| ==> r[i] == DecodedEvent(es[i])
  {
    if es == [] then [] else [DecodedEvent(es[0])] + DecodedEvents(es[1..])
  }

  // ---------------------------------------------------------------- decoding inverts encoding

  lemma {:induction false} DescriptorsRoundTrip(mem: Memory, k: nat, ds: seq<DescriptorSource>, loaded: nat, loop: nat, j: nat)
    requires ValidDescriptors(ds) && Stored(mem, k, EncodeDescriptors(ds))
    requires loop == loaded + |EncodeDescriptors(ds)| && j + |ds| <= MAX_DESCRIPTORS
    ensures DescriptorsFrom(mem, k, loaded, loop, j) == (DecodedDescriptors(ds), k + |EncodeDescriptors(ds)|)
    decreases |ds|
  {
    if ds != [] {
      var head, payload, rest := [ds[0].tag, |ds[0].payload|], ds[0].payload, EncodeDescriptors(ds[1..]);
      StoredSplit(mem, k, head + payload, rest);
      StoredSplit(mem, k, head, payload);
      assert mem.At(k + 0) == head[0] && mem.At(k + 1) == head[1];
      assert mem.Slice(k + 2, |payload|) == payload;
      DescriptorsRoundTrip(mem, k + 2 + |payload|, ds[1..], loaded + 2 + |payload|, loop, j + 1);
    }
  }

  lemma UnpackDuration(d: nat)
    requires d < 0x100_0000
    ensures (d / 65536 * 256 + d / 256 % 256) * 256 + d % 256 == d
  {}

  lemma UnpackStatus(status: nat, ca: nat, n: nat)
    requires status < 8 && ca < 2 && n < 4096
    ensures var b := status * 32 + ca * 16 + n / 256;
      b / 32 == status && b / 16 % 2 == ca && Join(b % 16, n % 256) == n
  {}

  lemma {:induction false} EventRoundTrip(mem: Memory, k: nat, e: EventSource)
    requires ValidEvent(e) && Stored(mem, k, EncodeFixed(e))
    ensures EventAt(mem, k) == DecodedEvent(e).(descriptors := [])
  {
    hide TimeOf, EncodeDescriptors;
    var s := EncodeFixed(e);
    assert mem.At(k + 0) == s[0] && mem.At(k + 1) == s[1];
    assert mem.At(k + 7) == s[7] && mem.At(k + 8) == s[8] && mem.At(k + 9) == s[9];
    assert mem.At(k + 10) == s[10] && mem.At(k + 11) == s[11];
    forall i | 0 <= i < 5
      ensures mem.At(k + 2 + i) == e.startTime[i]
    {
      assert mem.At(k + (2 + i)) == s[2 + i];
    }
    assert mem.Slice(k + 2, 5) == e.startTime;
    UnpackDuration(e.duration);
    UnpackStatus(e.runningStatus, e.freeCaMode, |EncodeDescriptors(e.descriptors)|);
  }

  /** No event has more descriptors than the inner loop takes. */
  predicate FewDescriptors(es: seq<EventSource>) {
    forall i :: 0 <= i < |es| ==> |es[i].descriptors| <= MAX_DESCRIPTORS
  }

  lemma EventsCons(es: seq<EventSource>)
    requires ValidEvents(es) && es != []
    ensures ValidEvent(es[0]) && ValidEvents(es[1..])
    ensures EncodeEvents(es) == EncodeFixed(es[0]) + EncodeDescriptors(es[0].descriptors) + EncodeEvents(es[1..])
  {
    hide ValidEvent, EncodeFixed, EncodeDescriptors;
  }

  lemma DecodedCons(es: seq<EventSource>, n: nat)
    requires ValidEvents(es) && 0 < n <= |es|
    ensures ValidEvents(es[1..]) && n - 1 <= |es[1..]|
    ensures DecodedEvents(es[..n]) == [DecodedEvent(es[0])] + DecodedEvents(es[1..][..n - 1])
  {
    hide ValidEvent, DecodedEvent;
    assert es[..n][1..] == es[1..][..n - 1];
  }

  lemma DecodedParts(e: EventSource)
    requires ValidEvent(e)
    ensures DecodedEvent(e).loopLength == |EncodeDescriptors(e.descriptors)|
    ensures DecodedEvent(e).(descriptors := []).(descriptors := DecodedDescriptors(e.descriptors)) == DecodedEvent(e)
  {}

  /**
   The counter may start up to eleven bytes off the true overhead without effect: the loop
   still runs once for each event, because an event never takes fewer than twelve bytes.
   */
  lemma {:induction false} EventsRoundTrip(mem: Memory, k: nat, es: seq<EventSource>, loaded: nat, length: nat, i: nat)
    requires ValidEvents(es) && FewDescriptors(es) && Stored(mem, k, EncodeEvents(es)) && i <= MAX_EVENTS
    requires loaded + |EncodeEvents(es)| - 12 < length <= loaded + |EncodeEvents(es)|
    requires loaded >= 11
    ensures EventsFrom(mem, k, loaded, length, i)
         == DecodedEvents(es[..if |es| <= MAX_EVENTS - i then |es| else MAX_EVENTS - i])
    decreases |es|
  {
    hide EncodeFixed, EventAt, DecodedEvent, DescriptorsFrom, EventsFrom, Stored, ValidDescriptors, EncodeDescriptors;
    if es == [] || i == MAX_EVENTS {
      EventsStop(mem, k, loaded, length, i);
    } else {
      hide EncodeEvents, DecodedEvents;
      var e, rest := es[0], EncodeEvents(es[1..]);
      var fixed, ds := EncodeFixed(e), EncodeDescriptors(e.descriptors);
      EventsCons(es);
      StoredSplit(mem, k, fixed + ds, rest);
      StoredSplit(mem, k, fixed, ds);
      EventRoundTrip(mem, k, e);
      DecodedParts(e);
      DescriptorsRoundTrip(mem, k + 12, e.descriptors, 0, |ds|, 0);
      EventsRoundTrip(mem, k + 12 + |ds|, es[1..], loaded + 12 + |ds|, length, i + 1);
      EventsStep(mem, k, loaded, length, i, []);
      DecodedCons(es, if |es| <= MAX_EVENTS - i then |es| else MAX_EVENTS - i);
    }
  }

  predicate ValidTail(t: Tail) {
    t.transportStreamId < 65536 && t.originalNetworkId < 65536 && t.segmentLast < 256 && t.lastTableId < 256
  }

  /** The six header bytes after the common eight. */
  function EncodeTail(t: Tail): (s: seq<byte>)
    requires ValidTail(t)
    ensures |s| == 6
  {
    [t.transportStreamId / 256, t.transportStreamId % 256, t.originalNetworkId / 256, t.originalNetworkId % 256,
     t.segmentLast, t.lastTableId]
  }

  lemma TailRoundTrip(mem: Memory, t: Tail)
    requires ValidTail(t) && Stored(mem, 8, EncodeTail(t))
    ensures TailAt(mem) == t
  {
    var s := EncodeTail(t);
    assert mem.At(8 + 0) == s[0] && mem.At(8 + 1) == s[1] && mem.At(8 + 2) == s[2] && mem.At(8 + 3) == s[3]
        && mem.At(8 + 4) == s[4] && mem.At(8 + 5) == s[5];
  }

  function EncodeEit(h: SectionHeader, reserved1: nat, reserved2: nat, t: Tail, es: seq<EventSource>): seq<byte>
    requires ValidHeader(h) && reserved1 < 8 && reserved2 < 4 && ValidTail(t) && ValidEvents(es)
  {
    EncodeHeader(h, reserved1, reserved2) + (EncodeTail(t) + EncodeEvents(es))
  }

  /** A section is accepted exactly by these table ids, with the syntax bit, up to this length. */
  lemma AcceptedHeader(mem: Memory, h: SectionHeader, reserved1: nat, reserved2: nat)
    requires ValidHeader(h) && reserved1 < 8 && reserved2 < 4
    requires Stored(mem, 0, EncodeHeader(h, reserved1, reserved2))
    ensures ValidEit(HeaderAt(mem))
       <==> (h.tableId == 0x4E || 0x50 <= h.tableId <= 0x5F) && h.syntax == 1 && h.length <= 4093
  {
    hide Stored, HeaderAt;
    HeaderRoundTrip(mem, h, reserved1, reserved2);
  }

  /** A duration in packed decimal is read as hours, minutes and seconds if the reads happen in their order. */
  lemma {:induction false} SecondsOfPacked(h: nat, m: nat, s: nat)
    requires h < 100 && m < 100 && s < 100
    ensures Seconds(Packed(h), Packed(m), Packed(s)) == 3600 * h + 60 * m + s
  {
    hide HexToDigi, Packed;
    PackedRoundTrip(h);
    PackedRoundTrip(m);
    PackedRoundTrip(s);
  }

  /** A well-formed section: a header that is accepted and whose length is the true one, CRC included. */
  predicate WellFormed(h: SectionHeader, reserved1: nat, reserved2: nat, t: Tail, es: seq<EventSource>) {
    && ValidHeader(h) && reserved1 < 8 && reserved2 < 4 && ValidTail(t) && ValidEvents(es)
    && ValidEit(h)
    && h.length + 3 == |EncodeEit(h, reserved1, reserved2, t, es)| + 4
  }

  /**
   Decoding inverts encoding: for every well-formed section whose events have at most 100
   descriptors each, exactly the first 100 events (or all, if fewer) are decoded, with all
   their descriptors and in order, whatever follows the section in memory.
   */
  lemma EitRoundTrip(mem: Memory, h: SectionHeader, reserved1: nat, reserved2: nat, t: Tail, es: seq<EventSource>)
    requires WellFormed(h, reserved1, reserved2, t, es) && FewDescriptors(es)
    requires Stored(mem, 0, EncodeEit(h, reserved1, reserved2, t, es))
    ensures HeaderAt(mem) == h && TailAt(mem) == t
    ensures EventsFrom(mem, 14, 16, h.length, 0) == DecodedEvents(es[..if |es| <= 100 then |es| else 100])
  {
    hide Stored, HeaderAt, TailAt, EncodeTail, EventsFrom, EncodeEvents, DecodedEvents;
    StoredSplit(mem, 0, EncodeHeader(h, reserved1, reserved2), EncodeTail(t) + EncodeEvents(es));
    StoredSplit(mem, 8, EncodeTail(t), EncodeEvents(es));
    HeaderRoundTrip(mem, h, reserved1, reserved2);
    TailRoundTrip(mem, t);
    EventsRoundTrip(mem, 14, es, 16, h.length, 0);
  }

  lemma {:induction false} DescriptorLimit(mem: Memory, k: nat, loaded: nat, loop: nat, j: nat)
    requires j <= MAX_DESCRIPTORS
    ensures |DescriptorsFrom(mem, k, loaded, loop, j).0| <= MAX_DESCRIPTORS - j
    decreases MAX_DESCRIPTORS - j
  {
    if j < MAX_DESCRIPTORS && loaded < loop {
      var d := DescriptorAt(mem, k);
      DescriptorLimit(mem, k + 2 + d.length, loaded + d.length + 2, loop, j + 1);
    }
  }

  /** On any memory whatever, at most 100 events are decoded, with at most 100 descriptors each. */
  lemma {:induction false} EventLimits(mem: Memory, k: nat, loaded: nat, length: nat, i: nat)
    requires i <= MAX_EVENTS
    ensures var es := EventsFrom(mem, k, loaded, length, i);
      |es| <= 100 - i && forall n :: 0 <= n < |es| ==> |es[n].descriptors| <= 100
    decreases MAX_EVENTS - i
  {
    hide DescriptorsFrom, EventAt;
    if i < MAX_EVENTS && loaded < length {
      var e := EventAt(mem, k);
      if e.loopLength <= length {
        DescriptorLimit(mem, k + 12, 0, e.loopLength, 0);
        var (ds, next) := DescriptorsFrom(mem, k + 12, 0, e.loopLength, 0);
        EventLimits(mem, next, loaded + 12 + e.loopLength, length, i + 1);
      }
    }
  }

  /** A well-formed section is decoded in full exactly when both loop limits suffice for it. */
  lemma {:induction false} DecodedInFull(mem: Memory, h: SectionHeader, reserved1: nat, reserved2: nat,
      t: Tail, es: seq<EventSource>)
    requires WellFormed(h, reserved1, reserved2, t, es)
    requires Stored(mem, 0, EncodeEit(h, reserved1, reserved2, t, es))
    ensures EventsFrom(mem, 14, 16, h.length, 0) == DecodedEvents(es)
      <==> |es| <= 100 && forall i :: 0 <= i < |es| ==> |es[i].descriptors| <= 100
  {
    hide Stored, EventsFrom, EncodeEvents;
    if |es| <= MAX_EVENTS && FewDescriptors(es) {
      EitRoundTrip(mem, h, reserved1, reserved2, t, es);
      assert es[..|es|] == es;
    }
    if EventsFrom(mem, 14, 16, h.length, 0) == DecodedEvents(es) {
      EventLimits(mem, 14, 16, h.length, 0);
      forall n | 0 <= n < |es|
        ensures |es[n].descriptors| <= MAX_DESCRIPTORS
      {
        assert DecodedEvents(es)[n] == DecodedEvent(es[n]);
      }
    }
  }

  // ---------------------------------------------------------------- sections that are not decoded in full

  /** An event in which everything but the descriptors is zero. */
  function Plain(ds: seq<DescriptorSource>): EventSource {
    EventSource(0, [0, 0, 0, 0, 0], 0, 0, 0, ds)
  }

  /** Descriptors and events without content. */
  function EmptyDescriptors(n: nat): seq<DescriptorSource> {
    seq(n, _ => DescriptorSource(0, []))
  }

  function EmptyEvents(n: nat): (es: seq<EventSource>)
    ensures |es| == n && forall i :: 0 <= i < n ==> es[i] == Plain([])
  {
    seq(n, _ => Plain([]))
  }

  lemma {:induction false} DescriptorsLength(n: nat)
    ensures ValidDescriptors(EmptyDescriptors(n)) && |EncodeDescriptors(EmptyDescriptors(n))| == 2 * n
    decreases n
  {
    if n > 0 {
      DescriptorsLength(n - 1);
      assert EmptyDescriptors(n)[1..] == EmptyDescriptors(n - 1);
    }
  }

  lemma {:induction false} EventsLength(n: nat)
    ensures ValidEvents(EmptyEvents(n)) && |EncodeEvents(EmptyEvents(n))| == 12 * n
    decreases n
  {
    if n > 0 {
      EventsLength(n - 1);
      assert EmptyEvents(n)[1..] == EmptyEvents(n - 1);
    }
  }

  function HeaderOf(length: nat): SectionHeader {
    SectionHeader(0x4E, 1, length, 0, 0, 0, 0, 0)
  }

  const NO_TAIL := Tail(0, 0, 0, 0)

  lemma SectionWellFormed(es: seq<EventSource>, n: nat)
    requires ValidEvents(es) && |EncodeEvents(es)| == n && n + 15 <= 4093
    ensures WellFormed(HeaderOf(n + 15), 0, 0, NO_TAIL, es)
  {
    hide EncodeEvents, ValidEvents;
  }

  lemma SectionStored(h: SectionHeader, es: seq<EventSource>, behind: nat -> byte)
    requires WellFormed(h, 0, 0, NO_TAIL, es)
    ensures Stored(Memory(EncodeEit(h, 0, 0, NO_TAIL, es), behind), 0, EncodeEit(h, 0, 0, NO_TAIL, es))
  {
    hide EncodeEit, WellFormed;
  }

  lemma ManyDescriptors()
    ensures |EmptyDescriptors(101)| == 101
  {}

  lemma OneEventLength()
    ensures var es := [Plain(EmptyDescriptors(101))]; ValidEvents(es) && |EncodeEvents(es)| == 214
  {
    hide EncodeDescriptors, ValidDescriptors;
    DescriptorsLength(101);
    var es := [Plain(EmptyDescriptors(101))];
    assert es[1..] == [];
  }

  /** Two well-formed sections that lose something: one with 101 events, one with 101 descriptors in its event. */
  lemma {:induction false} LimitsAreReached(es: seq<EventSource>, behind: nat -> byte)
    requires es == EmptyEvents(101) || es == [Plain(EmptyDescriptors(101))]
    ensures ValidEvents(es)
    ensures var h := HeaderOf(|EncodeEvents(es)| + 15);
      && WellFormed(h, 0, 0, NO_TAIL, es)
      && EventsFrom(Memory(EncodeEit(h, 0, 0, NO_TAIL, es), behind), 14, 16, h.length, 0) != DecodedEvents(es)
  {
    hide EncodeEvents, EncodeEit, EventsFrom, DecodedEvents, WellFormed, EncodeDescriptors, EmptyDescriptors, EmptyEvents;
    if es == EmptyEvents(101) {
      EventsLength(101);
    } else {
      OneEventLength();
      ManyDescriptors();
      assert |es[0].descriptors| == 101;
    }
    var n := |EncodeEvents(es)|;
    var h := HeaderOf(n + 15);
    SectionWellFormed(es, n);
    SectionStored(h, es, behind);
    DecodedInFull(Memory(EncodeEit(h, 0, 0, NO_TAIL, es), behind), h, 0, 0, NO_TAIL, es);
  }
}
