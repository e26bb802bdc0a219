/**
 Dates and times of m2tlib/util.c: the closed-form conversion from Modified
 Julian Date and the packed-decimal digits of a clock time.
 */
module Calendar {
  import opened Bytes
  import opened BitReader

  // ---------------------------------------------------------------- the Gregorian calendar

  /** As in `struct tm`: years since 1900, months 0..11, days from 1. */
  datatype Date = Date(year: int, mon: int, mday: int)

  predicate IsLeap(year: int) {
    year % 4 == 0 && (year % 100 != 0 || year % 400 == 0)
  }

  function MonthLength(year: int, mon: int): int {
    if mon == 1 then (if IsLeap(year) then 29 else 28)
    else if mon in {3, 5, 8, 10} then 30
    else 31
  }

  predicate ValidDate(d: Date) {
    0 <= d.mon < 12 && 1 <= d.mday <= MonthLength(d.year + 1900, d.mon)
  }

  function NextDay(d: Date): Date {
    if d.mday < MonthLength(d.year + 1900, d.mon) then d.(mday := d.mday + 1)
    else if d.mon < 11 then Date(d.year, d.mon + 1, 1)
    else Date(d.year + 1, 0, 1)
  }

  predicate Before(d: Date, e: Date) {
    d.year < e.year || (d.year == e.year && (d.mon < e.mon || (d.mon == e.mon && d.mday < e.mday)))
  }

  // ---------------------------------------------------------------- mjd_to_tm

  function MjdToDate(mjd: nat): Date {
    var jd := mjd + 2400001;
    var a := (4 * jd - 17918) / 146097;
    var b := (3 * a + 2) / 4;
    var jd4 := 4 * (jd + b - 37);
    var dtmp := 10 * (((jd4 - 237) % 1461) / 4) + 5;
    Date(jd4 / 1461 - 4712 - 1900, (dtmp / 306 + 2) % 12, (dtmp % 306) / 10 + 1)
  }

  // Day `d` of a year that starts on 1 March.

  function MarchDate(year: int, d: int): Date {
    Date(if d < 306 then year else year + 1, ((10 * d + 5) / 306 + 2) % 12, ((10 * d + 5) % 306) / 10 + 1)
  }

  /** Month and day of `MarchDate`, by the calendar's month lengths. */
  function MarchTable(year: int, d: int): Date {
    if d < 31 then Date(year, 2, 1 + d)
    else if d < 61 then Date(year, 3, d - 30)
    else if d < 92 then Date(year, 4, d - 60)
    else if d < 122 then Date(year, 5, d - 91)
    else if d < 153 then Date(year, 6, d - 121)
    else if d < 184 then Date(year, 7, d - 152)
    else if d < 214 then Date(year, 8, d - 183)
    else if d < 245 then Date(year, 9, d - 213)
    else if d < 275 then Date(year, 10, d - 244)
    else if d < 306 then Date(year, 11, d - 274)
    else if d < 337 then Date(year + 1, 0, d - 305)
    else Date(year + 1, 1, d - 336)
  }

  lemma MonthIndex(d: int, m: int)
    requires 306 * m <= 10 * d + 5 < 306 * (m + 1)
    ensures (10 * d + 5) / 306 == m && (10 * d + 5) % 306 == 10 * d + 5 - 306 * m
  {}

  lemma {:induction false} MarchDateIsTable(year: int, d: int)
    requires 0 <= d <= 365
    ensures MarchDate(year, d) == MarchTable(year, d)
  {
    if d < 31 {
      MonthIndex(d, 0);
    } else if d < 61 {
      MonthIndex(d, 1);
    } else if d < 92 {
      MonthIndex(d, 2);
    } else if d < 122 {
      MonthIndex(d, 3);
    } else if d < 153 {
      MonthIndex(d, 4);
    } else if d < 184 {
      MonthIndex(d, 5);
    } else if d < 214 {
      MonthIndex(d, 6);
    } else if d < 245 {
      MonthIndex(d, 7);
    } else if d < 275 {
      MonthIndex(d, 8);
    } else if d < 306 {
      MonthIndex(d, 9);
    } else if d < 337 {
      MonthIndex(d, 10);
    } else {
      MonthIndex(d, 11);
    }
  }

  /** Inside a March year the next day is the next day of the calendar. */
  lemma {:induction false} MarchNext(year: int, d: int)
    requires 0 <= d < 364 || (d == 364 && IsLeap(year + 1901))
    ensures MarchDate(year, d + 1) == NextDay(MarchDate(year, d))
    ensures ValidDate(MarchDate(year, d))
  {
    hide MarchDate, IsLeap;
    MarchDateIsTable(year, d);
    MarchDateIsTable(year, d + 1);
  }

  /** After the last day of February comes 1 March. */
  lemma MarchWrap(year: int, d: int)
    requires d == if IsLeap(year + 1901) then 365 else 364
    ensures MarchDate(year + 1, 0) == NextDay(MarchDate(year, d))
    ensures ValidDate(MarchDate(year, d))
  {
    hide MarchDate, IsLeap;
    MarchDateIsTable(year, d);
    MarchDateIsTable(year + 1, 0);
  }

  // Centuries run from 1 March of a year divisible by 100.  Day `n` of century `a`:

  function CenturyDate(a: int, n: int): Date {
    MarchDate(100 * a - 6600 + (4 * n + 3) / 1461, (4 * n + 3) % 1461 / 4)
  }

  lemma DivideShifted(x: int, k: int)
    ensures (x + 1461 * k) / 1461 == x / 1461 + k
    ensures (x + 1461 * k) % 1461 == x % 1461
  {}

  /** January and February belong to the next calendar year. */
  lemma YearOfMarchDay(x: int)
    ensures (x + 237) / 1461 == x / 1461 + if x % 1461 / 4 < 306 then 0 else 1
  {}

  /** Splitting a date number into century and day makes the whole computation linear. */
  lemma {:induction false} Decompose(mjd: nat) returns (a: int, n: int)
    ensures a >= 65 && n >= 0
    ensures 4 * (mjd + 2400001) - 17918 == 146097 * a + 4 * n + (3 * a + 2) % 4
    ensures 4 * n + (3 * a + 2) % 4 < 146097
    ensures MjdToDate(mjd) == CenturyDate(a, n)
  {
    var jd := mjd + 2400001;
    a := (4 * jd - 17918) / 146097;
    var b := (3 * a + 2) / 4;
    n := jd - 4480 - 36525 * a + b;
    var x := 4 * n + 3;
    assert 4 * (jd + b - 37) == x + 237 + 1461 * (100 * a + 12);
    DivideShifted(x + 237, 100 * a + 12);
    DivideShifted(x, 100 * a + 12);
    YearOfMarchDay(x);
  }

  /** The last day of a century: 29 February only every fourth time. */
  function CenturyEnd(a: int): int {
    if a % 4 == 2 then 36524 else 36523
  }

  /** The next date number is the next day of the century, or the first day of the next century. */
  lemma DecomposeNext(mjd: nat, a: int, n: int, a': int, n': int)
    requires n >= 0 && n' >= 0
    requires 4 * (mjd + 2400001) - 17918 == 146097 * a + 4 * n + (3 * a + 2) % 4
    requires 4 * n + (3 * a + 2) % 4 < 146097
    requires 4 * (mjd + 2400002) - 17918 == 146097 * a' + 4 * n' + (3 * a' + 2) % 4
    requires 4 * n' + (3 * a' + 2) % 4 < 146097
    ensures (a' == a && n' == n + 1 && n < CenturyEnd(a)) || (a' == a + 1 && n' == 0 && n == CenturyEnd(a))
  {}

  /** The day of a four-year cycle either advances inside its year or starts the next one. */
  lemma DaySplit(n: int, v: int, d: int)
    requires 0 <= n && v == (4 * n + 3) / 1461 && d == (4 * n + 3) % 1461 / 4
    ensures 0 <= d <= if v % 4 == 3 then 365 else 364
    ensures if d == (if v % 4 == 3 then 365 else 364)
            then (4 * n + 7) / 1461 == v + 1 && (4 * n + 7) % 1461 / 4 == 0
            else (4 * n + 7) / 1461 == v && (4 * n + 7) % 1461 / 4 == d + 1
  {}

  lemma RemainderPeriod(k: int, r: int, m: int)
    requires m == 4 || m == 100 || m == 400
    ensures (m * k + r) % m == r % m
  {}

  lemma {:induction false} LeapPeriod(q: int, r: int)
    ensures IsLeap(400 * q + r) <==> IsLeap(r)
  {
    RemainderPeriod(100 * q, r, 4);
    RemainderPeriod(4 * q, r, 100);
    RemainderPeriod(q, r, 400);
  }

  lemma {:induction false} LeapInCentury(a: int, v: int)
    requires 0 <= v <= 99
    ensures IsLeap(100 * a - 6600 + v + 1901) <==> v % 4 == 3 && (v == 99 ==> a % 4 == 2)
  {
    var k, j := a / 4, a % 4;
    var r := 100 * (j + 1) + v + 1;
    LeapPeriod(k - 12, r);
    assert 100 * a - 6600 + v + 1901 == 400 * (k - 12) + r;
  }

  /** One day on inside a century. */
  lemma {:induction false} CenturyNext(a: int, n: int)
    requires 0 <= n < CenturyEnd(a)
    ensures CenturyDate(a, n + 1) == NextDay(CenturyDate(a, n))
    ensures ValidDate(CenturyDate(a, n))
  {
    hide IsLeap, MarchDate, NextDay, ValidDate;
    var v, d := (4 * n + 3) / 1461, (4 * n + 3) % 1461 / 4;
    DaySplit(n, v, d);
    LeapInCentury(a, v);
    if d == (if v % 4 == 3 then 365 else 364) {
      MarchWrap(100 * a - 6600 + v, d);
    } else {
      MarchNext(100 * a - 6600 + v, d);
    }
  }

  lemma {:induction false} CenturyWrap(a: int)
    ensures CenturyDate(a + 1, 0) == NextDay(CenturyDate(a, CenturyEnd(a)))
    ensures ValidDate(CenturyDate(a, CenturyEnd(a)))
  {
    hide IsLeap, MarchDate, NextDay, ValidDate;
    LeapInCentury(a, 99);
    MarchWrap(100 * a - 6600 + 99, if a % 4 == 2 then 365 else 364);
  }

  /** The conversion of the next day number is the next day, for every day number. */
  lemma {:induction false} MjdNext(mjd: nat)
    ensures MjdToDate(mjd + 1) == NextDay(MjdToDate(mjd))
    ensures ValidDate(MjdToDate(mjd))
  {
    hide MjdToDate, CenturyDate, NextDay, ValidDate, CenturyEnd;
    var a, n := Decompose(mjd);
    var a', n' := Decompose(mjd + 1);
    DecomposeNext(mjd, a, n, a', n');
    if a' == a {
      CenturyNext(a, n);
    } else {
      CenturyWrap(a);
    }
  }

  /** Day 0 is 17 November 1858. */
  lemma {:induction false} MjdEpoch()
    ensures MjdToDate(0) == Date(1858 - 1900, 10, 17)
  {
    hide MjdToDate, MarchDate;
    var a, n := Decompose(0);
    assert a == 65 && n == 21445;
    assert (4 * n + 3) / 1461 == 58 && (4 * n + 3) % 1461 / 4 == 261;
    MarchDateIsTable(-42, 261);
  }

  lemma NextIsLater(d: Date)
    ensures Before(d, NextDay(d))
  {}

  /** Later day numbers are later dates; in particular no two day numbers share a date. */
  lemma {:induction false} MjdIncreasing(i: nat, j: nat)
    requires i < j
    ensures Before(MjdToDate(i), MjdToDate(j))
    decreases j
  {
    hide MjdToDate, NextDay;
    MjdNext(j - 1);
    NextIsLater(MjdToDate(j - 1));
    if i < j - 1 {
      MjdIncreasing(i, j - 1);
    }
  }

  /** For a 16-bit day number every intermediate value fits a 32-bit int and none is negative. */
  lemma MjdFits(mjd: nat)
    requires mjd < 0x1_0000
    ensures
      var jd := mjd + 2400001;
      var a := (4 * jd - 17918) / 146097;
      var b := (3 * a + 2) / 4;
      var jd4 := 4 * (jd + b - 37);
      var dtmp := 10 * (((jd4 - 237) % 1461) / 4) + 5;
      && 0 <= 4 * jd - 17918 <= 4 * jd < 0x8000_0000
      && 0 <= 3 * a + 2 < 0x8000_0000
      && 0 <= jd4 - 237 <= jd4 < 0x8000_0000
      && 0 <= dtmp < 0x8000_0000
  {}

  // ---------------------------------------------------------------- hex_to_digi

  function HexDigit(d: nat): char
    requires d < 16
  {
    "0123456789ABCDEF"[d]
  }

  /** What `sprintf("%X")` prints. */
  function HexText(x: byte): string {
    if x < 16 then [HexDigit(x)] else [HexDigit(x / 16), HexDigit(x % 16)]
  }

  /** `atoi` on a text without sign or blanks: the leading decimal digits. */
  function Atoi(text: string, sofar: nat): nat {
    if text == "" || !('0' <= text[0] <= '9') then sofar
    else Atoi(text[1..], sofar * 10 + (text[0] as int - '0' as int))
  }

  function HexToDigi(x: byte): nat {
    Atoi(HexText(x), 0)
  }

  lemma HexDigitValue(d: nat)
    requires d < 16
    ensures '0' <= HexDigit(d) <= '9' <==> d < 10
    ensures d < 10 ==> HexDigit(d) as int - '0' as int == d
  {}

  lemma AtoiOne(c: char, sofar: nat)
    ensures Atoi([c], sofar) == if '0' <= c <= '9' then sofar * 10 + (c as int - '0' as int) else sofar
  {
    assert [c][1..] == "";
  }

  lemma HexToDigiValue(x: byte)
    ensures HexToDigi(x) ==
            if x < 16 then (if x < 10 then x else 0)
            else if x / 16 >= 10 then 0
            else if x % 16 >= 10 then x / 16
            else 10 * (x / 16) + x % 16
  {
    hide HexDigit;
    if x < 16 {
      HexDigitValue(x);
      AtoiOne(HexDigit(x), 0);
    } else {
      HexDigitValue(x / 16);
      HexDigitValue(x % 16);
      var hi, lo := HexDigit(x / 16), HexDigit(x % 16);
      assert [hi, lo][1..] == [lo];
      AtoiOne(lo, x / 16);
    }
  }

  /** A number 0..99 in packed decimal. */
  function Packed(d: nat): byte
    requires d < 100
  {
    d / 10 * 16 + d % 10
  }

  /** The digits come back as they read exactly when both are decimal; packed decimals round-trip. */
  lemma {:induction false} PackedDecimal(x: byte)
    ensures HexToDigi(x) == 10 * (x / 16) + x % 16 <==> x / 16 < 10 && x % 16 < 10
    ensures x / 16 < 10 && x % 16 < 10 ==> HexToDigi(x) < 100 && Packed(HexToDigi(x)) == x
  {
    hide HexToDigi;
    HexToDigiValue(x);
  }

  /** Digits that do not come back: the letter cuts the number short. */
  lemma {:induction false} LetterCutsShort()
    ensures HexToDigi(0x1A) == 1 && HexToDigi(0x1A) != 10 * 1 + 10
  {
    hide HexToDigi;
    HexToDigiValue(0x1A);
  }

  lemma PackedRoundTrip(d: nat)
    requires d < 100
    ensures HexToDigi(Packed(d)) == d
  {
    hide HexToDigi;
    HexToDigiValue(Packed(d));
  }

  // ---------------------------------------------------------------- time_to_tm

  datatype Tm = Tm(date: Date, hour: nat, min: nat, sec: nat)

  /** The time written in the five bytes at `mem`. */
  function TimeAt(mem: Memory): Tm {
    Tm(MjdToDate(U16(mem, 0)), HexToDigi(mem.At(2)), HexToDigi(mem.At(3)), HexToDigi(mem.At(4)))
  }

  method TimeToTm(target: Memory) returns (tm: Tm)
    ensures tm == TimeAt(target)
    ensures ValidDate(tm.date)
  {
    hide MjdToDate, ValidDate, HexToDigi, Bits, U16;
    var boff := 0;
    var mjd, hour, min, sec: nat;
    mjd, boff := GetBit(target, boff, 16);
    Field16(target, 0);
    MjdNext(mjd);
    hour, boff := GetBit(target, boff, 8);
    ByteNumber(target, 2);
    min, boff := GetBit(target, boff, 8);
    ByteNumber(target, 3);
    sec, boff := GetBit(target, boff, 8);
    ByteNumber(target, 4);
    tm := Tm(MjdToDate(mjd), HexToDigi(hour), HexToDigi(min), HexToDigi(sec));
  }

  predicate DecimalClock(mem: Memory) {
    forall i :: 2 <= i < 5 ==> mem.At(i) / 16 < 10 && mem.At(i) % 16 < 10
  }

  /** Two times with decimal clock digits are equal exactly when their five bytes are. */
  lemma {:induction false} TimeInjective(m: Memory, m': Memory)
    requires DecimalClock(m) && DecimalClock(m')
    ensures TimeAt(m) == TimeAt(m') <==> forall i :: 0 <= i < 5 ==> m.At(i) == m'.At(i)
  {
    hide MjdToDate, HexToDigi;
    forall i | 2 <= i < 5
      ensures HexToDigi(m.At(i)) == HexToDigi(m'.At(i)) ==> m.At(i) == m'.At(i)
    {
      PackedDecimal(m.At(i));
      PackedDecimal(m'.At(i));
    }
    if U16(m, 0) < U16(m', 0) {
      MjdIncreasing(U16(m, 0), U16(m', 0));
    } else if U16(m', 0) < U16(m, 0) {
      MjdIncreasing(U16(m', 0), U16(m, 0));
    }
    if TimeAt(m) == TimeAt(m') {
      forall i | 0 <= i < 5
        ensures m.At(i) == m'.At(i)
      {}
    }
  }
}
