/**
 The big-endian bit reader `getBit` of m2tlib/util.c, which every decoder uses.
 */
module BitReader {
  import opened Bytes

  // ---------------------------------------------------------------- specification

  function Pow2(n: nat): (r: nat)
    ensures r > 0
  {
    if n == 0 then 1 else 2 * Pow2(n - 1)
  }

  /** The `n` low bits of `v`, most significant first. */
  function BitsOf(v: nat, n: nat): (bits: seq<bool>)
    ensures |bits| == n
    decreases n, v
  {
    if n == 0 then [] else BitsOf(v / 2, n - 1) + [v % 2 == 1]
  }

  /** Bit `i` of memory, counting from the most significant bit of byte 0. */
  predicate BitAt(mem: Memory, i: nat) {
    BitsOf(mem.At(i / 8), 8)[i % 8]
  }

  /** The bits [off, off + n) of memory. */
  function BitString(mem: Memory, off: nat, n: nat): (s: seq<bool>)
    ensures |s| == n
    ensures forall i :: 0 <= i < n ==> s[i] == BitAt(mem, off + i)
  {
    seq(n, i requires 0 <= i < n => BitAt(mem, off + i))
  }

  /** A bit string read as a big-endian number. */
  function Number(bits: seq<bool>): nat {
    if bits == [] then 0
    else 2 * Number(bits[..|bits| - 1]) + if bits[|bits| - 1] then 1 else 0
  }

  /** The bits [off, off + n) of memory as a big-endian number. */
  function Bits(mem: Memory, off: nat, n: nat): nat {
    Number(BitString(mem, off, n))
  }

  // ---------------------------------------------------------------- arithmetic

  lemma {:induction false} PowAdd(m: nat, n: nat)
    ensures Pow2(m + n) == Pow2(m) * Pow2(n)
    decreases n
  {
    if n > 0 {
      PowAdd(m, n - 1);
      assert Pow2(m) * (2 * Pow2(n - 1)) == 2 * (Pow2(m) * Pow2(n - 1));
    }
  }

  lemma {:induction false} NumberBound(bits: seq<bool>)
    ensures Number(bits) < Pow2(|bits|)
    decreases |bits|
  {
    if bits != [] {
      NumberBound(bits[..|bits| - 1]);
    }
  }

  lemma Regroup(a: nat, b: nat, p: nat, c: nat)
    ensures 2 * (a * p + b) + c == a * (2 * p) + (2 * b + c)
  {}

  lemma {:induction false} NumberAppend(a: seq<bool>, b: seq<bool>)
    ensures Number(a + b) == Number(a) * Pow2(|b|) + Number(b)
    decreases |b|
  {
    if b == [] {
      assert a + b == a;
    } else {
      var b', c := b[..|b| - 1], if b[|b| - 1] then 1 else 0;
      assert (a + b)[..|a + b| - 1] == a + b';
      NumberAppend(a, b');
      Regroup(Number(a), Number(b'), Pow2(|b'|), c);
    }
  }

  lemma BitStringSplit(mem: Memory, off: nat, m: nat, n: nat)
    ensures BitString(mem, off, m + n) == BitString(mem, off, m) + BitString(mem, off + m, n)
  {}

  /** Reading m bits and then n bits splits a read of m + n bits. */
  lemma {:induction false} BitsSplit(mem: Memory, off: nat, m: nat, n: nat)
    ensures Bits(mem, off, m + n) == Bits(mem, off, m) * Pow2(n) + Bits(mem, off + m, n)
  {
    BitStringSplit(mem, off, m, n);
    NumberAppend(BitString(mem, off, m), BitString(mem, off + m, n));
  }

  lemma {:induction false} MulLess(k: nat, q: nat, d: nat, m: nat)
    requires k < q && m < d
    ensures k * d + m < q * d
    decreases q
  {
    assert q * d == (q - 1) * d + d;
    if k < q - 1 {
      MulLess(k, q - 1, d, m);
    }
  }

  lemma {:induction false} DivisionUnique(k: nat, m: nat, q: nat, r: nat, d: nat)
    requires k * d + m == q * d + r && m < d && r < d
    ensures k == q && m == r
  {
    if k < q {
      MulLess(k, q, d, m);
    } else if q < k {
      MulLess(q, k, d, r);
    }
  }

  lemma {:induction false} DivMod(q: nat, d: nat, r: nat)
    requires r < d
    ensures (q * d + r) / d == q && (q * d + r) % d == r
  {
    var n := q * d + r;
    assert n == (n / d) * d + n % d;
    DivisionUnique(n / d, n % d, q, r, d);
  }

  // ---------------------------------------------------------------- the C program

  /** Bitwise or of two unsigned words. */
  function BitOr(a: nat, b: nat): nat {
    if a == 0 then b
    else if b == 0 then a
    else 2 * BitOr(a / 2, b / 2) + if a % 2 == 1 || b % 2 == 1 then 1 else 0
  }

  /** Or-ing in a value that fits below a cleared low part is addition. */
  lemma {:induction false} OrDisjoint(q: nat, b: nat, k: nat)
    requires b < Pow2(k)
    ensures BitOr(q * Pow2(k), b) == q * Pow2(k) + b
    decreases k
  {
    if k > 0 {
      var h := q * Pow2(k - 1);
      assert q * Pow2(k) == 2 * h;
      OrDisjoint(q, b / 2, k - 1);
    }
  }

  lemma {:induction false} NumberOfBits(v: nat, n: nat)
    requires v < Pow2(n)
    ensures Number(BitsOf(v, n)) == v
    decreases n
  {
    if n > 0 {
      NumberOfBits(v / 2, n - 1);
      assert BitsOf(v, n)[..n - 1] == BitsOf(v / 2, n - 1);
    }
  }

  lemma ByteString(mem: Memory, p: nat)
    ensures BitString(mem, 8 * p, 8) == BitsOf(mem.At(p), 8)
  {
    forall k | 0 <= k < 8
      ensures BitString(mem, 8 * p, 8)[k] == BitsOf(mem.At(p), 8)[k]
    {
      assert (8 * p + k) / 8 == p && (8 * p + k) % 8 == k;
    }
  }

  lemma ByteNumber(mem: Memory, p: nat)
    ensures Bits(mem, 8 * p, 8) == mem.At(p)
  {
    ByteString(mem, p);
    assert Pow2(8) == 256;
    NumberOfBits(mem.At(p), 8);
  }

  /** Cutting leading bits off a word of size p * q by shifting left and back. */
  lemma {:induction false} CutFront(word: nat, a: nat, b: nat, p: nat, q: nat, whole: nat)
    requires word == a * p + b && whole == p * q && b < p && 0 < q
    ensures 0 < whole
    ensures word * q % whole / q == b
  {
    assert (a * p + b) * q == a * (p * q) + b * q;
    assert b * q < p * q by { MulLess(b, p, q, 0); }
    DivMod(a, p * q, b * q);
    DivMod(b, q, 0);
  }

  lemma Spread(a: nat, b: nat, w: nat, wide: nat)
    requires wide == 256 * w
    ensures (a * 256 + b) * w == a * wide + b * w
  {
    assert (a * 256 + b) * w == (a * 256) * w + b * w;
    assert (a * 256) * w == a * (256 * w);
  }

  lemma {:induction false} OrByte(head: nat, b: byte, k: nat)
    ensures BitOr(head * Pow2(8 + k), b * Pow2(k)) == (head * 256 + b) * Pow2(k)
  {
    var w, wide := Pow2(k), Pow2(8 + k);
    assert wide == 256 * w by {
      PowAdd(8, k);
      assert Pow2(8) == 256;
    }
    MulLess(b, 256, w, 0);
    OrDisjoint(head, b * w, 8 + k);
    Spread(head, b, w, wide);
  }

  /** A read that ends on a byte boundary, extended by the next byte. */
  lemma ThenByte(mem: Memory, off: nat, n: nat, k: nat)
    requires off + n == 8 * k
    ensures Bits(mem, off, n + 8) == Bits(mem, off, n) * 256 + mem.At(k)
  {
    hide Bits;
    assert Pow2(8) == 256;
    BitsSplit(mem, off, n, 8);
    ByteNumber(mem, k);
  }

  lemma BitsBound(mem: Memory, off: nat, n: nat)
    ensures Bits(mem, off, n) < Pow2(n)
  {
    NumberBound(BitString(mem, off, n));
  }

  lemma SplitWord(mem: Memory, off: nat, f: nat, w: nat)
    requires f <= w
    ensures Bits(mem, off, w) == Bits(mem, off, f) * Pow2(w - f) + Bits(mem, off + f, w - f)
    ensures Bits(mem, off + f, w - f) < Pow2(w - f)
    ensures Pow2(w) == Pow2(w - f) * Pow2(f)
  {
    hide Bits, Pow2;
    assert Bits(mem, off, w) == Bits(mem, off, f) * Pow2(w - f) + Bits(mem, off + f, w - f) by {
      BitsSplit(mem, off, f, w - f);
    }
    BitsBound(mem, off + f, w - f);
    PowAdd(w - f, f);
  }

  lemma DivNonNegative(v: nat, d: nat)
    requires 0 < d
    ensures 0 <= v / d
  {}

  // The C operators on unsigned words.

  function ShiftLeft(v: nat, k: nat): nat {
    v * Pow2(k)
  }

  function ShiftRight(v: nat, k: nat): nat {
    DivNonNegative(v, Pow2(k));
    v / Pow2(k)
  }

  /** The low `w` bits: what is left after an overflowing shift. */
  function Truncate(v: nat, w: nat): nat {
    v % Pow2(w)
  }

  /** Dropping `f` leading bits of a `w`-bit word by shifting left and back. */
  lemma {:induction false} CutLeading(mem: Memory, off: nat, f: nat, w: nat)
    requires f <= w
    ensures ShiftRight(Truncate(ShiftLeft(Bits(mem, off, w), f), w), f) == Bits(mem, off + f, w - f)
  {
    hide Bits, Pow2;
    SplitWord(mem, off, f, w);
    CutFront(Bits(mem, off, w), Bits(mem, off, f), Bits(mem, off + f, w - f), Pow2(w - f), Pow2(f), Pow2(w));
  }

  /** Dropping `cut` trailing bits by shifting right. */
  lemma CutTrailing(mem: Memory, off: nat, n: nat, cut: nat)
    ensures ShiftRight(Bits(mem, off, n + cut), cut) == Bits(mem, off, n)
  {
    hide Bits, Pow2;
    BitsSplit(mem, off, n, cut);
    BitsBound(mem, off + n, cut);
    DivMod(Bits(mem, off, n), Pow2(cut), Bits(mem, off + n, cut));
  }

  /** The first `count` of eight bytes are in place, above cleared bits. */
  ghost predicate Loaded(mem: Memory, p: nat, count: nat, tnum: nat)
    requires count <= 8
  {
    tnum == Bits(mem, 8 * p, 8 * count) * Pow2((8 - count) * 8)
  }

  lemma LoadByte(mem: Memory, p: nat, i: nat, tnum: nat)
    requires 1 <= i <= 8
    requires Loaded(mem, p, i - 1, tnum)
    ensures Loaded(mem, p, i, BitOr(tnum, ShiftLeft(mem.At(p + i - 1), (8 - i) * 8)))
  {
    hide Bits, Pow2, BitOr;
    var k := (8 - i) * 8;
    assert (8 - (i - 1)) * 8 == 8 + k;
    OrByte(Bits(mem, 8 * p, 8 * (i - 1)), mem.At(p + i - 1), k);
    ThenByte(mem, 8 * p, 8 * (i - 1), p + i - 1);
  }

  lemma LoadNone(mem: Memory, p: nat)
    ensures Loaded(mem, p, 0, 0)
  {}

  lemma LoadAll(mem: Memory, p: nat, tnum: nat)
    requires Loaded(mem, p, 8, tnum)
    ensures tnum == Bits(mem, 8 * p, 64)
  {}

  /** The loop of getBit: eight bytes or-ed into a 64-bit word, first byte highest. */
  method LoadWord(mem: Memory, pbyte: nat) returns (tnum: nat)
    ensures tnum == Bits(mem, 8 * pbyte, 64)
  {
    tnum := 0;
    LoadNone(mem, pbyte);
    var i := 1;
    while i <= 8
      invariant 1 <= i <= 9
      invariant Loaded(mem, pbyte, i - 1, tnum)
    {
      LoadByte(mem, pbyte, i, tnum);
      var tmp := ShiftLeft(mem.At(pbyte + i - 1), (8 - i) * 8);
      tnum := BitOr(tnum, tmp);
      i := i + 1;
    }
    LoadAll(mem, pbyte, tnum);
  }

  /** Returns the `gbit` bits from bit `boff` on, and the advanced cursor. */
  method GetBit(mem: Memory, boff: nat, gbit: nat) returns (tnum: nat, next: nat)
    requires 1 <= gbit && boff % 8 + gbit <= 64
    ensures tnum == Bits(mem, boff, gbit)
    ensures tnum < Pow2(gbit)
    ensures next == boff + gbit
  {
    hide Bits, Pow2, Truncate, ShiftLeft, ShiftRight;
    var pbyte := boff / 8;
    tnum := LoadWord(mem, pbyte);

    var fcutbit := boff - pbyte * 8;
    CutLeading(mem, 8 * pbyte, fcutbit, 64);
    tnum := Truncate(ShiftLeft(tnum, fcutbit), 64);
    tnum := ShiftRight(tnum, fcutbit);

    CutTrailing(mem, boff, gbit, 64 - fcutbit - gbit);
    tnum := ShiftRight(tnum, 64 - fcutbit - gbit);
    BitsBound(mem, boff, gbit);
    next := boff + gbit;
  }

  // ---------------------------------------------------------------- fields in terms of bytes

  lemma {:induction false} DropFront(whole: nat, a: nat, b: nat, p: nat)
    requires whole == a * p + b && b < p
    ensures whole % p == b
  {
    DivMod(a, p, b);
  }

  lemma {:induction false} KeepLow(mem: Memory, off: nat, s: nat, w: nat)
    ensures Bits(mem, off, s + w) % Pow2(w) == Bits(mem, off + s, w)
  {
    hide Bits, Pow2;
    BitsSplit(mem, off, s, w);
    BitsBound(mem, off + s, w);
    DropFront(Bits(mem, off, s + w), Bits(mem, off, s), Bits(mem, off + s, w), Pow2(w));
  }

  lemma KeepHigh(mem: Memory, k: nat, n: nat)
    requires n <= 8
    ensures ShiftRight(mem.At(k), 8 - n) == Bits(mem, 8 * k, n)
  {
    ByteNumber(mem, k);
    CutTrailing(mem, 8 * k, n, 8 - n);
  }

  /** A field of `w` bits inside byte `k`, after `s` leading bits. */
  lemma FieldInByte(mem: Memory, k: nat, s: nat, w: nat)
    requires s + w <= 8
    ensures Bits(mem, 8 * k + s, w) == mem.At(k) / Pow2(8 - s - w) % Pow2(w)
  {
    hide Bits, Pow2;
    KeepHigh(mem, k, s + w);
    KeepLow(mem, 8 * k, s, w);
  }

  function U16(mem: Memory, k: nat): nat {
    mem.At(k) * 256 + mem.At(k + 1)
  }

  function U24(mem: Memory, k: nat): nat {
    U16(mem, k) * 256 + mem.At(k + 2)
  }

  lemma Field16(mem: Memory, k: nat)
    ensures Bits(mem, 8 * k, 16) == U16(mem, k)
  {
    ByteNumber(mem, k);
    ThenByte(mem, 8 * k, 8, k + 1);
  }

  lemma Field24(mem: Memory, k: nat)
    ensures Bits(mem, 8 * k, 24) == U24(mem, k)
  {
    Field16(mem, k);
    ThenByte(mem, 8 * k, 16, k + 2);
  }

  /** A field that starts after `s` bits of byte `k` and ends with byte `k + 1`. */
  lemma FieldAcross(mem: Memory, k: nat, s: nat)
    requires s < 8
    ensures Bits(mem, 8 * k + s, 16 - s) == mem.At(k) % Pow2(8 - s) * 256 + mem.At(k + 1)
  {
    hide Bits;
    ByteNumber(mem, k);
    KeepLow(mem, 8 * k, s, 8 - s);
    ThenByte(mem, 8 * k + s, 8 - s, k + 1);
  }

  /** A 13-bit field after three bits, and a 12-bit field after four. */
  function Field13(mem: Memory, k: nat): nat {
    Join(mem.At(k) % 32, mem.At(k + 1))
  }

  function Field12(mem: Memory, k: nat): (n: nat)
    ensures n < 4096
  {
    Join(mem.At(k) % 16, mem.At(k + 1))
  }

  lemma Fields(mem: Memory, k: nat)
    ensures Bits(mem, 8 * k + 3, 13) == Field13(mem, k)
    ensures Bits(mem, 8 * k + 4, 12) == Field12(mem, k)
  {
    hide Bits;
    FieldAcross(mem, k, 3);
    FieldAcross(mem, k, 4);
    assert Pow2(5) == 32 && Pow2(4) == 16;
  }

  /** The section_length field of the section that starts at `mem`. */
  function SectionLength(mem: Memory): (n: nat)
    ensures n < 4096
  {
    Field12(mem, 1)
  }
}
