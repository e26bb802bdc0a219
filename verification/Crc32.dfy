/**
 The table-driven CRC of m2tlib/crc32.c and the polynomial division it stands
 for (CRC-32/MPEG-2: generator 0x04C11DB7, initial register all ones, most
 significant bit first, no final inversion; Annex A of ISO/IEC 13818-1).

 The division is stated on bit strings; the program runs on 32-bit words.
 */
module Crc32 {
  import opened Bytes
  import opened BitReader

  // ------------------------------------------------ division over GF(2)

  type BitSeq = seq<bool>

  /** A 32-bit shift register, most significant bit first. */
  type Register = r: BitSeq | |r| == 32
    witness seq(32, _ => false)

  function Zeros(n: nat): (z: BitSeq)
    ensures |z| == n && forall i :: 0 <= i < n ==> !z[i]
  {
    seq(n, _ => false)
  }

  function Xor(a: BitSeq, b: BitSeq): (r: BitSeq)
    requires |a| == |b|
    ensures |r| == |a| && forall i :: 0 <= i < |a| ==> r[i] == (a[i] != b[i])
  {
    seq(|a|, i requires 0 <= i < |a| => a[i] != b[i])
  }

  /** x^32 + x^26 + x^23 + x^22 + x^16 + x^12 + x^11 + x^10 + x^8 + x^7 + x^5 + x^4 + x^2 + x + 1, that is 0x04C11DB7. */
  predicate HasTerm(power: nat) {
    power in {26, 23, 22, 16, 12, 11, 10, 8, 7, 5, 4, 2, 1, 0}
  }

  /** The generator's 32 low coefficients, highest power first. */
  function Generator(): (g: Register)
    ensures forall i :: 0 <= i < 32 ==> g[i] == HasTerm(31 - i)
  {
    seq(32, i requires 0 <= i < 32 => HasTerm(31 - i))
  }

  function Up(r: Register): Register {
    r[1..] + [false]
  }

  /** One step of long division: shift a message bit into the register. */
  function DivideBit(r: Register, bit: bool): Register {
    if r[0] != bit then Xor(Up(r), Generator()) else Up(r)
  }

  /** Bit-at-a-time division of a whole message. */
  function Divide(r: Register, bits: BitSeq): Register
    decreases |bits|
  {
    if bits == [] then r else Divide(DivideBit(r, bits[0]), bits[1..])
  }

  /** The bits of a byte string in transmission order. */
  function MessageBits(data: seq<byte>): (bits: BitSeq)
    ensures |bits| == 8 * |data|
  {
    if data == [] then [] else MessageBits(data[..|data| - 1]) + BitsOf(data[|data| - 1], 8)
  }

  /** The CRC of a byte string, by definition: the remainder from an all-ones register. */
  function Remainder(data: seq<byte>): Register {
    Divide(seq(32, _ => true), MessageBits(data))
  }

  // ------------------------------------------------ the C program's words

  /** A word literal as a register. */
  function RegisterOf(w: bv32): Register {
    [w & 0x8000_0000 != 0, w & 0x4000_0000 != 0, w & 0x2000_0000 != 0, w & 0x1000_0000 != 0,
     w & 0x0800_0000 != 0, w & 0x0400_0000 != 0, w & 0x0200_0000 != 0, w & 0x0100_0000 != 0,
     w & 0x0080_0000 != 0, w & 0x0040_0000 != 0, w & 0x0020_0000 != 0, w & 0x0010_0000 != 0,
     w & 0x0008_0000 != 0, w & 0x0004_0000 != 0, w & 0x0002_0000 != 0, w & 0x0001_0000 != 0,
     w & 0x0000_8000 != 0, w & 0x0000_4000 != 0, w & 0x0000_2000 != 0, w & 0x0000_1000 != 0,
     w & 0x0000_0800 != 0, w & 0x0000_0400 != 0, w & 0x0000_0200 != 0, w & 0x0000_0100 != 0,
     w & 0x0000_0080 != 0, w & 0x0000_0040 != 0, w & 0x0000_0020 != 0, w & 0x0000_0010 != 0,
     w & 0x0000_0008 != 0, w & 0x0000_0004 != 0, w & 0x0000_0002 != 0, w & 0x0000_0001 != 0]
  }

  /** The 256 entries of crc_table, sixteen to a row. */
  function CrcTable(i: bv32): bv32 {
    match i >> 4
    case 0 => (match i & 0xF
      case 0 => 0x00000000 case 1 => 0x04c11db7 case 2 => 0x09823b6e case 3 => 0x0d4326d9
      case 4 => 0x130476dc case 5 => 0x17c56b6b case 6 => 0x1a864db2 case 7 => 0x1e475005
      case 8 => 0x2608edb8 case 9 => 0x22c9f00f case 10 => 0x2f8ad6d6 case 11 => 0x2b4bcb61
      case 12 => 0x350c9b64 case 13 => 0x31cd86d3 case 14 => 0x3c8ea00a case _ => 0x384fbdbd)
    case 1 => (match i & 0xF
      case 0 => 0x4c11db70 case 1 => 0x48d0c6c7 case 2 => 0x4593e01e case 3 => 0x4152fda9
      case 4 => 0x5f15adac case 5 => 0x5bd4b01b case 6 => 0x569796c2 case 7 => 0x52568b75
      case 8 => 0x6a1936c8 case 9 => 0x6ed82b7f case 10 => 0x639b0da6 case 11 => 0x675a1011
      case 12 => 0x791d4014 case 13 => 0x7ddc5da3 case 14 => 0x709f7b7a case _ => 0x745e66cd)
    case 2 => (match i & 0xF
      case 0 => 0x9823b6e0 case 1 => 0x9ce2ab57 case 2 => 0x91a18d8e case 3 => 0x95609039
      case 4 => 0x8b27c03c case 5 => 0x8fe6dd8b case 6 => 0x82a5fb52 case 7 => 0x8664e6e5
      case 8 => 0xbe2b5b58 case 9 => 0xbaea46ef case 10 => 0xb7a96036 case 11 => 0xb3687d81
      case 12 => 0xad2f2d84 case 13 => 0xa9ee3033 case 14 => 0xa4ad16ea case _ => 0xa06c0b5d)
    case 3 => (match i & 0xF
      case 0 => 0xd4326d90 case 1 => 0xd0f37027 case 2 => 0xddb056fe case 3 => 0xd9714b49
      case 4 => 0xc7361b4c case 5 => 0xc3f706fb case 6 => 0xceb42022 case 7 => 0xca753d95
      case 8 => 0xf23a8028 case 9 => 0xf6fb9d9f case 10 => 0xfbb8bb46 case 11 => 0xff79a6f1
      case 12 => 0xe13ef6f4 case 13 => 0xe5ffeb43 case 14 => 0xe8bccd9a case _ => 0xec7dd02d)
    case 4 => (match i & 0xF
      case 0 => 0x34867077 case 1 => 0x30476dc0 case 2 => 0x3d044b19 case 3 => 0x39c556ae
      case 4 => 0x278206ab case 5 => 0x23431b1c case 6 => 0x2e003dc5 case 7 => 0x2ac12072
      case 8 => 0x128e9dcf case 9 => 0x164f8078 case 10 => 0x1b0ca6a1 case 11 => 0x1fcdbb16
      case 12 => 0x018aeb13 case 13 => 0x054bf6a4 case 14 => 0x0808d07d case _ => 0x0cc9cdca)
    case 5 => (match i & 0xF
      case 0 => 0x7897ab07 case 1 => 0x7c56b6b0 case 2 => 0x71159069 case 3 => 0x75d48dde
      case 4 => 0x6b93dddb case 5 => 0x6f52c06c case 6 => 0x6211e6b5 case 7 => 0x66d0fb02
      case 8 => 0x5e9f46bf case 9 => 0x5a5e5b08 case 10 => 0x571d7dd1 case 11 => 0x53dc6066
      case 12 => 0x4d9b3063 case 13 => 0x495a2dd4 case 14 => 0x44190b0d case _ => 0x40d816ba)
    case 6 => (match i & 0xF
      case 0 => 0xaca5c697 case 1 => 0xa864db20 case 2 => 0xa527fdf9 case 3 => 0xa1e6e04e
      case 4 => 0xbfa1b04b case 5 => 0xbb60adfc case 6 => 0xb6238b25 case 7 => 0xb2e29692
      case 8 => 0x8aad2b2f case 9 => 0x8e6c3698 case 10 => 0x832f1041 case 11 => 0x87ee0df6
      case 12 => 0x99a95df3 case 13 => 0x9d684044 case 14 => 0x902b669d case _ => 0x94ea7b2a)
    case 7 => (match i & 0xF
      case 0 => 0xe0b41de7 case 1 => 0xe4750050 case 2 => 0xe9362689 case 3 => 0xedf73b3e
      case 4 => 0xf3b06b3b case 5 => 0xf771768c case 6 => 0xfa325055 case 7 => 0xfef34de2
      case 8 => 0xc6bcf05f case 9 => 0xc27dede8 case 10 => 0xcf3ecb31 case 11 => 0xcbffd686
      case 12 => 0xd5b88683 case 13 => 0xd1799b34 case 14 => 0xdc3abded case _ => 0xd8fba05a)
    case 8 => (match i & 0xF
      case 0 => 0x690ce0ee case 1 => 0x6dcdfd59 case 2 => 0x608edb80 case 3 => 0x644fc637
      case 4 => 0x7a089632 case 5 => 0x7ec98b85 case 6 => 0x738aad5c case 7 => 0x774bb0eb
      case 8 => 0x4f040d56 case 9 => 0x4bc510e1 case 10 => 0x46863638 case 11 => 0x42472b8f
      case 12 => 0x5c007b8a case 13 => 0x58c1663d case 14 => 0x558240e4 case _ => 0x51435d53)
    case 9 => (match i & 0xF
      case 0 => 0x251d3b9e case 1 => 0x21dc2629 case 2 => 0x2c9f00f0 case 3 => 0x285e1d47
      case 4 => 0x36194d42 case 5 => 0x32d850f5 case 6 => 0x3f9b762c case 7 => 0x3b5a6b9b
      case 8 => 0x0315d626 case 9 => 0x07d4cb91 case 10 => 0x0a97ed48 case 11 => 0x0e56f0ff
      case 12 => 0x1011a0fa case 13 => 0x14d0bd4d case 14 => 0x19939b94 case _ => 0x1d528623)
    case 10 => (match i & 0xF
      case 0 => 0xf12f560e case 1 => 0xf5ee4bb9 case 2 => 0xf8ad6d60 case 3 => 0xfc6c70d7
      case 4 => 0xe22b20d2 case 5 => 0xe6ea3d65 case 6 => 0xeba91bbc case 7 => 0xef68060b
      case 8 => 0xd727bbb6 case 9 => 0xd3e6a601 case 10 => 0xdea580d8 case 11 => 0xda649d6f
      case 12 => 0xc423cd6a case 13 => 0xc0e2d0dd case 14 => 0xcda1f604 case _ => 0xc960ebb3)
    case 11 => (match i & 0xF
      case 0 => 0xbd3e8d7e case 1 => 0xb9ff90c9 case 2 => 0xb4bcb610 case 3 => 0xb07daba7
      case 4 => 0xae3afba2 case 5 => 0xaafbe615 case 6 => 0xa7b8c0cc case 7 => 0xa379dd7b
      case 8 => 0x9b3660c6 case 9 => 0x9ff77d71 case 10 => 0x92b45ba8 case 11 => 0x9675461f
      case 12 => 0x8832161a case 13 => 0x8cf30bad case 14 => 0x81b02d74 case _ => 0x857130c3)
    case 12 => (match i & 0xF
      case 0 => 0x5d8a9099 case 1 => 0x594b8d2e case 2 => 0x5408abf7 case 3 => 0x50c9b640
      case 4 => 0x4e8ee645 case 5 => 0x4a4ffbf2 case 6 => 0x470cdd2b case 7 => 0x43cdc09c
      case 8 => 0x7b827d21 case 9 => 0x7f436096 case 10 => 0x7200464f case 11 => 0x76c15bf8
      case 12 => 0x68860bfd case 13 => 0x6c47164a case 14 => 0x61043093 case _ => 0x65c52d24)
    case 13 => (match i & 0xF
      case 0 => 0x119b4be9 case 1 => 0x155a565e case 2 => 0x18197087 case 3 => 0x1cd86d30
      case 4 => 0x029f3d35 case 5 => 0x065e2082 case 6 => 0x0b1d065b case 7 => 0x0fdc1bec
      case 8 => 0x3793a651 case 9 => 0x3352bbe6 case 10 => 0x3e119d3f case 11 => 0x3ad08088
      case 12 => 0x2497d08d case 13 => 0x2056cd3a case 14 => 0x2d15ebe3 case _ => 0x29d4f654)
    case 14 => (match i & 0xF
      case 0 => 0xc5a92679 case 1 => 0xc1683bce case 2 => 0xcc2b1d17 case 3 => 0xc8ea00a0
      case 4 => 0xd6ad50a5 case 5 => 0xd26c4d12 case 6 => 0xdf2f6bcb case 7 => 0xdbee767c
      case 8 => 0xe3a1cbc1 case 9 => 0xe760d676 case 10 => 0xea23f0af case 11 => 0xeee2ed18
      case 12 => 0xf0a5bd1d case 13 => 0xf464a0aa case 14 => 0xf9278673 case _ => 0xfde69bc4)
    case _ => (match i & 0xF
      case 0 => 0x89b8fd09 case 1 => 0x8d79e0be case 2 => 0x803ac667 case 3 => 0x84fbdbd0
      case 4 => 0x9abc8bd5 case 5 => 0x9e7d9662 case 6 => 0x933eb0bb case 7 => 0x97ffad0c
      case 8 => 0xafb010b1 case 9 => 0xab710d06 case 10 => 0xa6322bdf case 11 => 0xa2f33668
      case 12 => 0xbcb4666d case 13 => 0xb8757bda case 14 => 0xb5365d03 case _ => 0xb1f740b4)
  }

  /** Eight bits as an index into the table. */
  function IndexOf(bits: BitSeq): bv32
    requires |bits| == 8
  {
    (if bits[0] then 0x80 else 0) | (if bits[1] then 0x40 else 0) |
    (if bits[2] then 0x20 else 0) | (if bits[3] then 0x10 else 0) |
    (if bits[4] then 0x08 else 0) | (if bits[5] then 0x04 else 0) |
    (if bits[6] then 0x02 else 0) | (if bits[7] then 0x01 else 0)
  }

  // ------------------------------------------------ every table entry is a division by eight bits

  function Shift1(w: bv32): bv32 {
    if w & 0x8000_0000 != 0 then (w << 1) ^ 0x04C11DB7 else w << 1
  }

  function Shift8(w: bv32): bv32 {
    Shift1(Shift1(Shift1(Shift1(Shift1(Shift1(Shift1(Shift1(w))))))))
  }

  lemma TableQuarter0(i: bv32)
    requires i < 0x40
    ensures CrcTable(i) == Shift8(i << 24)
  {}

  lemma TableQuarter1(i: bv32)
    requires 0x40 <= i < 0x80
    ensures CrcTable(i) == Shift8(i << 24)
  {}

  lemma TableQuarter2(i: bv32)
    requires 0x80 <= i < 0xC0
    ensures CrcTable(i) == Shift8(i << 24)
  {}

  lemma TableQuarter3(i: bv32)
    requires 0xC0 <= i < 0x100
    ensures CrcTable(i) == Shift8(i << 24)
  {}

  lemma TableEntry(i: bv32)
    requires i < 0x100
    ensures CrcTable(i) == Shift8(i << 24)
  {
    if i < 0x40 {
      TableQuarter0(i);
    } else if i < 0x80 {
      TableQuarter1(i);
    } else if i < 0xC0 {
      TableQuarter2(i);
    } else {
      TableQuarter3(i);
    }
  }

  /** The bits that the generator flips, written out. */
  function Flip(r: Register): Register {
    [r[0], r[1], r[2], r[3], r[4], !r[5], r[6], r[7], !r[8], !r[9], r[10], r[11], r[12], r[13], r[14], !r[15],
     r[16], r[17], r[18], !r[19], !r[20], !r[21], r[22], !r[23],
     !r[24], r[25], !r[26], !r[27], r[28], !r[29], !r[30], !r[31]]
  }

  lemma FlipQuarter0(r: Register, i: nat)
    requires 0 <= i < 8
    ensures Flip(r)[i] == (r[i] != HasTerm(31 - i))
  {}

  lemma FlipQuarter1(r: Register, i: nat)
    requires 8 <= i < 16
    ensures Flip(r)[i] == (r[i] != HasTerm(31 - i))
  {}

  lemma FlipQuarter2(r: Register, i: nat)
    requires 16 <= i < 24
    ensures Flip(r)[i] == (r[i] != HasTerm(31 - i))
  {}

  lemma FlipQuarter3(r: Register, i: nat)
    requires 24 <= i < 32
    ensures Flip(r)[i] == (r[i] != HasTerm(31 - i))
  {}

  lemma {:induction false} FlipQuarter(r: Register, i: nat)
    requires i < 32
    ensures Flip(r)[i] == (r[i] != HasTerm(31 - i))
  {
    if i < 8 {
      FlipQuarter0(r, i);
    } else if i < 16 {
      FlipQuarter1(r, i);
    } else if i < 24 {
      FlipQuarter2(r, i);
    } else {
      FlipQuarter3(r, i);
    }
  }

  lemma {:induction false} FlipIsXor(r: Register)
    ensures Flip(r) == Xor(r, Generator())
  {
    forall i: nat | i < 32
      ensures Flip(r)[i] == Xor(r, Generator())[i]
    {
      FlipQuarter(r, i);
    }
  }

  lemma RegisterUp(w: bv32)
    ensures RegisterOf(w << 1) == Up(RegisterOf(w))
  {}

  lemma RegisterTop(w: bv32)
    ensures RegisterOf(w)[0] == (w & 0x8000_0000 != 0)
  {}

  lemma RegisterFlip(w: bv32)
    ensures RegisterOf(w ^ 0x04C11DB7) == Flip(RegisterOf(w))
  {}

  lemma {:induction false} RegisterShift1(w: bv32)
    ensures RegisterOf(Shift1(w)) == DivideBit(RegisterOf(w), false)
  {
    hide RegisterOf, Flip;
    RegisterTop(w);
    RegisterUp(w);
    RegisterFlip(w << 1);
    FlipIsXor(Up(RegisterOf(w)));
  }

  function HighBits(w: bv32): BitSeq {
    [w & 0x8000_0000 != 0, w & 0x4000_0000 != 0, w & 0x2000_0000 != 0, w & 0x1000_0000 != 0,
     w & 0x0800_0000 != 0, w & 0x0400_0000 != 0, w & 0x0200_0000 != 0, w & 0x0100_0000 != 0]
  }

  /** The bits of an index, seen in the top byte of a word. */
  lemma IndexByte(bits: BitSeq)
    requires |bits| == 8
    ensures IndexOf(bits) < 0x100
    ensures HighBits(IndexOf(bits) << 24) == bits
  {}

  lemma LowBitsClear(v: bv32)
    ensures RegisterOf(v << 24)[8..] == Zeros(24)
  {}

  lemma HighByte(w: bv32)
    ensures RegisterOf(w)[..8] == HighBits(w)
  {}

  lemma IndexBits(bits: BitSeq)
    requires |bits| == 8
    ensures IndexOf(bits) < 0x100
    ensures RegisterOf(IndexOf(bits) << 24) == bits + Zeros(24)
  {
    hide IndexOf, RegisterOf, HighBits;
    IndexByte(bits);
    LowBitsClear(IndexOf(bits));
    HighByte(IndexOf(bits) << 24);
    var r := RegisterOf(IndexOf(bits) << 24);
    assert r[..8] == bits;
    assert r == r[..8] + r[8..];
  }

  // ------------------------------------------------ the algebra of division

  lemma {:induction false} DivideAppend(r: Register, a: BitSeq, b: BitSeq)
    ensures Divide(r, a + b) == Divide(Divide(r, a), b)
    decreases |a|
  {
    if a == [] {
      assert a + b == b;
    } else {
      assert (a + b)[1..] == a[1..] + b;
      DivideAppend(DivideBit(r, a[0]), a[1..], b);
    }
  }

  /** A step can be undone: the generator's last coefficient tells which branch was taken. */
  lemma DivideBitInjective(r: Register, r': Register, bit: bool)
    requires DivideBit(r, bit) == DivideBit(r', bit)
    ensures r == r'
  {
    var d, d' := DivideBit(r, bit), DivideBit(r', bit);
    assert d[31] == (r[0] != bit);
    assert d'[31] == (r'[0] != bit);
    assert r[0] == r'[0];
    forall i | 0 <= i < 32
      ensures r[i] == r'[i]
    {
      if i > 0 {
        assert d[i - 1] == (r[i] != (r[0] != bit && HasTerm(31 - (i - 1))));
        assert d'[i - 1] == (r'[i] != (r'[0] != bit && HasTerm(31 - (i - 1))));
      }
    }
  }

  lemma {:induction false} DivideInjective(r: Register, r': Register, bits: BitSeq)
    requires Divide(r, bits) == Divide(r', bits)
    ensures r == r'
    decreases |bits|
  {
    if bits != [] {
      DivideInjective(DivideBit(r, bits[0]), DivideBit(r', bits[0]), bits[1..]);
      DivideBitInjective(r, r', bits[0]);
    }
  }

  /** A short message left-aligned in a register. */
  function Pad(w: BitSeq): Register
    requires |w| <= 32
  {
    w + Zeros(32 - |w|)
  }

  lemma FeedFirst(r: Register, w: BitSeq)
    requires 0 < |w| <= 32
    ensures Xor(DivideBit(r, w[0]), Pad(w[1..])) == DivideBit(Xor(r, Pad(w)), false)
  {
    var x, y := Xor(DivideBit(r, w[0]), Pad(w[1..])), DivideBit(Xor(r, Pad(w)), false);
    assert Up(Pad(w)) == Pad(w[1..]);
    forall i | 0 <= i < 32
      ensures x[i] == y[i]
    {
      var flip := r[0] != w[0] && HasTerm(31 - i);
      assert DivideBit(r, w[0])[i] == (Up(r)[i] != flip);
      assert y[i] == (Up(Xor(r, Pad(w)))[i] != flip);
      assert Up(Xor(r, Pad(w)))[i] == (Up(r)[i] != Up(Pad(w))[i]);
    }
  }

  /** Feeding at most 32 bits is adding them to the register and then feeding zeros. */
  lemma {:induction false} FeedWord(r: Register, w: BitSeq)
    requires |w| <= 32
    ensures Divide(r, w) == Divide(Xor(r, Pad(w)), Zeros(|w|))
    decreases |w|
  {
    if w == [] {
      assert Xor(r, Pad(w)) == r;
    } else {
      var t, n := w[1..], DivideBit(r, w[0]);
      FeedWord(n, t);
      FeedFirst(r, w);
      assert Zeros(|w|)[1..] == Zeros(|t|);
    }
  }

  /** While the n leading bits of y are clear, feeding n zeros only moves y up. */
  lemma {:induction false} CarryUp(r: Register, y: Register, n: nat)
    requires n <= 32 && forall i :: 0 <= i < n ==> !y[i]
    ensures Divide(Xor(r, y), Zeros(n)) == Xor(Divide(r, Zeros(n)), y[n..] + Zeros(n))
    decreases n
  {
    if n > 0 {
      var r1, y1 := DivideBit(r, false), Up(y);
      assert Zeros(n)[1..] == Zeros(n - 1);
      assert DivideBit(Xor(r, y), false) == Xor(r1, y1) by {
        assert Up(Xor(r, y)) == Xor(Up(r), Up(y));
      }
      CarryUp(r1, y1, n - 1);
      assert y1[n - 1..] + Zeros(n - 1) == y[n..] + Zeros(n);
    } else {
      assert y[0..] + Zeros(0) == y;
    }
  }

  lemma {:induction false} ZerosStayZero(n: nat)
    ensures Divide(Zeros(32), Zeros(n)) == Zeros(32)
    decreases n
  {
    if n > 0 {
      assert DivideBit(Zeros(32), false) == Zeros(32);
      assert Zeros(n)[1..] == Zeros(n - 1);
      ZerosStayZero(n - 1);
    }
  }

  lemma XorSelf(r: Register)
    ensures Xor(r, r) == Zeros(32)
  {}

  lemma XorZero(r: Register, w: Register)
    requires Xor(r, w) == Zeros(32)
    ensures r == w
  {
    forall i | 0 <= i < 32
      ensures r[i] == w[i]
    {
      assert !Xor(r, w)[i];
    }
  }

  /** A message followed by 32 check bits leaves remainder zero exactly when the bits are its remainder. */
  lemma CheckBits(r: Register, check: BitSeq)
    requires |check| == 32
    ensures Divide(r, check) == Zeros(32) <==> check == r
  {
    FeedWord(r, check);
    assert Pad(check) == check;
    XorSelf(r);
    ZerosStayZero(32);
    if Divide(r, check) == Zeros(32) {
      DivideInjective(Xor(r, check), Zeros(32), Zeros(32));
      XorZero(r, check);
    }
  }

  /** Two different bit strings of the same length up to 32 never meet in the register. */
  lemma ShortBurst(r: Register, w: BitSeq, w': BitSeq)
    requires |w| == |w'| <= 32
    requires Divide(r, w) == Divide(r, w')
    ensures w == w'
  {
    FeedWord(r, w);
    FeedWord(r, w');
    var x, x' := Xor(r, Pad(w)), Xor(r, Pad(w'));
    DivideInjective(x, x', Zeros(|w|));
    forall i | 0 <= i < |w|
      ensures w[i] == w'[i]
    {
      assert x[i] == (r[i] != w[i]) && x'[i] == (r[i] != w'[i]);
    }
  }

  // ------------------------------------------------ the C program

  function ShiftMany(n: nat, w: bv32): bv32
    decreases n
  {
    if n == 0 then w else ShiftMany(n - 1, Shift1(w))
  }

  lemma ShiftEight(w: bv32)
    ensures ShiftMany(8, w) == Shift8(w)
  {
    hide Shift1;
  }

  lemma {:induction false} RegisterShift(n: nat, w: bv32)
    ensures RegisterOf(ShiftMany(n, w)) == Divide(RegisterOf(w), Zeros(n))
    decreases n
  {
    hide RegisterOf, Shift1, DivideBit;
    if n > 0 {
      RegisterShift(n - 1, Shift1(w));
      RegisterShift1(w);
      assert Zeros(n)[1..] == Zeros(n - 1);
    }
  }

  /** Looking the index up divides its eight bits. */
  lemma Lookup(index: BitSeq)
    requires |index| == 8
    ensures RegisterOf(CrcTable(IndexOf(index))) == Divide(Pad(index), Zeros(8))
  {
    hide RegisterOf, CrcTable, IndexOf, Shift8, Divide;
    IndexBits(index);
    TableEntry(IndexOf(index));
    ShiftEight(IndexOf(index) << 24);
    RegisterShift(8, IndexOf(index) << 24);
  }

  lemma XorCommutes(a: BitSeq, b: BitSeq)
    requires |a| == |b|
    ensures Xor(a, b) == Xor(b, a)
  {}

  /** One table step divides by the eight bits of the byte. */
  lemma {:induction false} TableStep(crc: Register, bits: BitSeq)
    requires |bits| == 8
    ensures Xor(crc[8..] + Zeros(8), Divide(Pad(Xor(crc[..8], bits)), Zeros(8))) == Divide(crc, bits)
  {
    hide Divide;
    var index := Xor(crc[..8], bits);
    var low: Register := Zeros(8) + crc[8..];
    FeedWord(crc, bits);
    assert Xor(crc, Pad(bits)) == Xor(Pad(index), low);
    CarryUp(Pad(index), low, 8);
    assert low[8..] == crc[8..];
    XorCommutes(Divide(Pad(index), Zeros(8)), crc[8..] + Zeros(8));
  }

  /** (crc << 8) ^ crc_table[((crc >> 24) ^ b) & 0xff] */
  method Update(crc: Register, b: byte) returns (crc': Register)
    ensures crc' == Divide(crc, BitsOf(b, 8))
  {
    var index := Xor(crc[..8], BitsOf(b, 8));
    Lookup(index);
    TableStep(crc, BitsOf(b, 8));
    crc' := Xor(crc[8..] + Zeros(8), RegisterOf(CrcTable(IndexOf(index))));
  }

  lemma RemainderSnoc(data: Memory, n: nat)
    ensures Remainder(data.Slice(0, n + 1)) == Divide(Remainder(data.Slice(0, n)), BitsOf(data.At(n), 8))
  {
    var s, t := data.Slice(0, n), data.Slice(0, n + 1);
    assert t[..n] == s && t[n] == data.At(n);
    DivideAppend(seq(32, _ => true), MessageBits(s), BitsOf(data.At(n), 8));
  }

  /** `crc32`: the table-driven loop computes the remainder of the division. */
  method Compute(data: Memory, len: int) returns (crc: Register)
    ensures crc == Remainder(data.Slice(0, if len < 0 then 0 else len))
  {
    crc := seq(32, _ => true);
    assert data.Slice(0, 0) == [];
    var i := 0;
    while i < len
      invariant 0 <= i && (i <= len || (len < 0 && i == 0))
      invariant crc == Remainder(data.Slice(0, i))
    {
      RemainderSnoc(data, i);
      crc := Update(crc, data.At(i));
      i := i + 1;
    }
  }

  // ------------------------------------------------ checking a section

  lemma {:induction false} MessageAppend(a: seq<byte>, b: seq<byte>)
    ensures MessageBits(a + b) == MessageBits(a) + MessageBits(b)
    decreases |b|
  {
    hide BitsOf;
    if b == [] {
      assert a + b == a;
    } else {
      assert (a + b)[..|a + b| - 1] == a + b[..|b| - 1];
      MessageAppend(a, b[..|b| - 1]);
    }
  }

  lemma {:induction false} MessageIsMemory(mem: Memory, k: nat, n: nat)
    ensures MessageBits(mem.Slice(k, n)) == BitString(mem, 8 * k, 8 * n)
    decreases n
  {
    hide BitAt, BitsOf;
    if n > 0 {
      assert mem.Slice(k, n)[..n - 1] == mem.Slice(k, n - 1);
      MessageIsMemory(mem, k, n - 1);
      ByteString(mem, k + n - 1);
      BitStringSplit(mem, 8 * k, 8 * (n - 1), 8);
    }
  }

  lemma {:induction false} BitsOfNumber(bits: seq<bool>)
    ensures BitsOf(Number(bits), |bits|) == bits
    decreases |bits|
  {
    if bits != [] {
      var front := bits[..|bits| - 1];
      BitsOfNumber(front);
      assert Number(bits) / 2 == Number(front);
      assert Number(bits) % 2 == 1 <==> bits[|bits| - 1];
      assert bits == front + [bits[|bits| - 1]];
    }
  }

  /** Where the cursor lands after wrapping modulo 2^64 when section_length is 0. */
  const WRAPPED: nat := 0x1_0000_0000_0000_0000 - 8

  /**
   What `crc32_check` decides.  The whole section divides without remainder; for
   section_length 0 a word far behind the section is compared with the untouched register.
   */
  predicate Passes(packet: Memory) {
    var n := SectionLength(packet);
    if n == 0 then BitsOf(Bits(packet, WRAPPED, 32), 32) == Remainder([])
    else Remainder(packet.Slice(0, n + 3)) == Zeros(32)
  }

  /** Moving the 64-bit cursor over a section's data, possibly backwards. */
  function WrapCursor(boff: nat, n: nat): nat {
    (boff + (n - 4) * 8) % 0x1_0000_0000_0000_0000
  }

  lemma CursorLands(n: nat)
    requires n < 4096
    ensures WrapCursor(24, n) == if n == 0 then WRAPPED else 8 * (n - 1)
    ensures WrapCursor(24, n) % 8 == 0
  {}

  lemma LengthIsField(mem: Memory)
    ensures SectionLength(mem) == Field12(mem, 1)
  {}

  /** n bytes and the four after them: the stored word matches exactly when the whole divides. */
  lemma AcceptedSection(mem: Memory, n: nat)
    ensures BitsOf(Bits(mem, 8 * n, 32), 32) == Remainder(mem.Slice(0, n))
       <==> Remainder(mem.Slice(0, n + 4)) == Zeros(32)
  {
    var check := BitString(mem, 8 * n, 32);
    BitsOfNumber(check);
    assert mem.Slice(0, n + 4) == mem.Slice(0, n) + mem.Slice(n, 4);
    MessageAppend(mem.Slice(0, n), mem.Slice(n, 4));
    MessageIsMemory(mem, n, 4);
    DivideAppend(seq(32, _ => true), MessageBits(mem.Slice(0, n)), check);
    CheckBits(Remainder(mem.Slice(0, n)), check);
  }

  /** `crc32_check`: 1 when the stored CRC is the computed one. */
  method Check(packet: Memory) returns (r: int)
    ensures r == 0 || r == 1
    ensures r == 1 <==> Passes(packet)
  {
    hide Divide, MessageBits, Bits, BitsOf, SectionLength, Pow2, Remainder, WrapCursor;
    var boff := 12;
    var sectionLength: nat;
    sectionLength, boff := GetBit(packet, boff, 12);
    Fields(packet, 1);
    assert sectionLength == SectionLength(packet) by { LengthIsField(packet); }
    boff := WrapCursor(boff, sectionLength);
    CursorLands(sectionLength);
    var stored: nat;
    stored, boff := GetBit(packet, boff, 32);
    var crc := BitsOf(stored, 32);
    var computed := Compute(packet, sectionLength + 3 - 4);
    if sectionLength > 0 {
      AcceptedSection(packet, sectionLength - 1);
    } else {
      assert packet.Slice(0, 0) == [];
    }
    r := if crc == computed then 1 else 0;
  }

  // ------------------------------------------------ error detection

  /** Two byte strings whose bits agree outside [k, k + 32). */
  ghost predicate SameOutside(a: seq<byte>, b: seq<byte>, k: nat)
    requires |a| == |b|
  {
    forall i :: 0 <= i < 8 * |a| && !(k <= i < k + 32) ==> MessageBits(a)[i] == MessageBits(b)[i]
  }

  /** A burst of at most 32 bits, anywhere, changes the remainder. */
  lemma {:induction false} BurstChangesRemainder(a: seq<byte>, b: seq<byte>, k: nat)
    requires |a| == |b| && SameOutside(a, b, k)
    requires Remainder(a) == Remainder(b)
    ensures MessageBits(a) == MessageBits(b)
  {
    hide Divide, DivideBit, MessageBits, BitsOf;
    var x, y, init := MessageBits(a), MessageBits(b), seq(32, _ => true);
    var from := if k <= |x| then k else |x|;
    var to := if k + 32 <= |x| then k + 32 else |x|;
    assert x == x[..from] + x[from..to] + x[to..];
    assert y == y[..from] + y[from..to] + y[to..];
    assert x[..from] == y[..from] && x[to..] == y[to..];
    DivideAppend(init, x[..from] + x[from..to], x[to..]);
    DivideAppend(init, y[..from] + y[from..to], y[to..]);
    DivideAppend(init, x[..from], x[from..to]);
    DivideAppend(init, y[..from], y[from..to]);
    DivideInjective(Divide(init, x[..to]), Divide(init, y[..to]), x[to..]);
    ShortBurst(Divide(init, x[..from]), x[from..to], y[from..to]);
  }

  lemma {:induction false} MessageInjective(a: seq<byte>, b: seq<byte>)
    requires |a| == |b| && MessageBits(a) == MessageBits(b)
    ensures a == b
    decreases |a|
  {
    hide BitsOf;
    if a != [] {
      var n := |a| - 1;
      var x, y := MessageBits(a), MessageBits(b);
      assert x[..8 * n] == MessageBits(a[..n]) && y[..8 * n] == MessageBits(b[..n]);
      assert x[8 * n..] == BitsOf(a[n], 8) && y[8 * n..] == BitsOf(b[n], 8);
      MessageInjective(a[..n], b[..n]);
      assert Pow2(8) == 256;
      NumberOfBits(a[n], 8);
      NumberOfBits(b[n], 8);
      assert a == a[..n] + [a[n]] && b == b[..n] + [b[n]];
    }
  }

  lemma {:induction false} MessageBitAt(a: seq<byte>, i: nat)
    requires i < 8 * |a|
    ensures MessageBits(a)[i] == BitsOf(a[i / 8], 8)[i % 8]
    decreases |a|
  {
    hide BitsOf;
    if i < 8 * (|a| - 1) {
      MessageBitAt(a[..|a| - 1], i);
    }
  }

  /**
   Of two different sections with the same section_length that agree outside 32
   consecutive bits, check bits included, at most one passes the check.
   */
  lemma BurstDetected(a: Memory, b: Memory, k: nat)
    requires SectionLength(a) == SectionLength(b) >= 1
    requires SameOutside(a.Slice(0, SectionLength(a) + 3), b.Slice(0, SectionLength(a) + 3), k)
    requires a.Slice(0, SectionLength(a) + 3) != b.Slice(0, SectionLength(a) + 3)
    ensures !(Passes(a) && Passes(b))
  {
    hide MessageBits, SectionLength, Remainder;
    var s, t := a.Slice(0, SectionLength(a) + 3), b.Slice(0, SectionLength(a) + 3);
    if Remainder(s) == Remainder(t) {
      BurstChangesRemainder(s, t, k);
      MessageInjective(s, t);
    }
  }

  /** Four consecutive corrupted bytes are such a burst. */
  lemma FourBytesAreABurst(a: seq<byte>, b: seq<byte>, k: nat)
    requires |a| == |b|
    requires forall i :: 0 <= i < |a| && !(k <= i < k + 4) ==> a[i] == b[i]
    ensures SameOutside(a, b, 8 * k)
  {
    forall i | 0 <= i < 8 * |a| && !(8 * k <= i < 8 * k + 32)
      ensures MessageBits(a)[i] == MessageBits(b)[i]
    {
      MessageBitAt(a, i);
      MessageBitAt(b, i);
      assert a[i / 8] == b[i / 8];
    }
  }

  // ------------------------------------------------ a known value

  function ShiftBit(w: bv32, bit: bool): bv32 {
    if (w & 0x8000_0000 != 0) != bit then (w << 1) ^ 0x04C11DB7 else w << 1
  }

  lemma {:induction false} RegisterShiftBit(w: bv32, bit: bool)
    ensures RegisterOf(ShiftBit(w, bit)) == DivideBit(RegisterOf(w), bit)
  {
    hide RegisterOf, Flip;
    RegisterTop(w);
    RegisterUp(w);
    RegisterFlip(w << 1);
    FlipIsXor(Up(RegisterOf(w)));
  }

  /** Four bits of a message on a word. */
  function ShiftNibble(w: bv32, a: bool, b: bool, c: bool, d: bool): bv32 {
    ShiftBit(ShiftBit(ShiftBit(ShiftBit(w, a), b), c), d)
  }

  lemma FirstBit(r: Register, a: bool, rest: BitSeq)
    ensures Divide(r, [a] + rest) == Divide(DivideBit(r, a), rest)
  {
    assert ([a] + rest)[1..] == rest;
  }

  lemma DivideNone(r: Register)
    ensures Divide(r, []) == r
  {}

  lemma {:induction false} NibbleStep(w: bv32, a: bool, b: bool, c: bool, d: bool)
    ensures Divide(RegisterOf(w), [a, b, c, d]) == RegisterOf(ShiftNibble(w, a, b, c, d))
  {
    hide RegisterOf, ShiftBit, DivideBit, Divide;
    var w1 := ShiftBit(w, a);
    var w2 := ShiftBit(w1, b);
    var w3 := ShiftBit(w2, c);
    assert [a] + [b, c, d] == [a, b, c, d] && [b] + [c, d] == [b, c, d] && [c] + [d] == [c, d] && [d] + [] == [d];
    FirstBit(RegisterOf(w), a, [b, c, d]);
    FirstBit(RegisterOf(w1), b, [c, d]);
    FirstBit(RegisterOf(w2), c, [d]);
    FirstBit(RegisterOf(w3), d, []);
    DivideNone(RegisterOf(ShiftBit(w3, d)));
    RegisterShiftBit(w, a);
    RegisterShiftBit(w1, b);
    RegisterShiftBit(w2, c);
    RegisterShiftBit(w3, d);
  }

  /** The code of a decimal digit. */
  function ShiftDigit(w: bv32, n: nat): bv32 {
    ShiftNibble(ShiftNibble(w, false, false, true, true), n / 8 % 2 == 1, n / 4 % 2 == 1, n / 2 % 2 == 1, n % 2 == 1)
  }

  lemma BitsOfEight(m: nat)
    ensures BitsOf(m, 8) == BitsOf(m / 16, 4) + [m / 8 % 2 == 1, m / 4 % 2 == 1, m / 2 % 2 == 1, m % 2 == 1]
  {
    var a, b, c := m / 2, m / 4, m / 8;
    assert a / 2 == b && b / 2 == c && c / 2 == m / 16;
    assert BitsOf(m, 8) == BitsOf(a, 7) + [m % 2 == 1];
    assert BitsOf(a, 7) == BitsOf(b, 6) + [a % 2 == 1];
    assert BitsOf(b, 6) == BitsOf(c, 5) + [b % 2 == 1];
    assert BitsOf(c, 5) == BitsOf(m / 16, 4) + [c % 2 == 1];
  }

  lemma NibbleOfThree()
    ensures BitsOf(3, 4) == [false, false, true, true]
  {}

  lemma DigitParities(n: nat)
    requires n < 10
    ensures var m := 0x30 + n;
      && m / 16 == 3 && m / 8 % 2 == n / 8 % 2 && m / 4 % 2 == n / 4 % 2 && m / 2 % 2 == n / 2 % 2 && m % 2 == n % 2
  {
    var m := 0x30 + n;
    assert m / 8 == 6 + n / 8;
    assert m / 4 == 12 + n / 4;
    assert m / 2 == 24 + n / 2;
  }

  lemma DigitBits(n: nat)
    requires n < 10
    ensures BitsOf(0x30 + n, 8)
         == [false, false, true, true] + [n / 8 % 2 == 1, n / 4 % 2 == 1, n / 2 % 2 == 1, n % 2 == 1]
  {
    NibbleOfThree();
    hide BitsOf;
    var m := 0x30 + n;
    BitsOfEight(m);
    DigitParities(n);
  }

  lemma {:induction false} DigitStep(data: seq<byte>, w: bv32, next: seq<byte>, w': bv32, n: nat)
    requires n < 10 && next == data + [0x30 + n] && w' == ShiftDigit(w, n)
    requires Remainder(data) == RegisterOf(w)
    ensures Remainder(next) == RegisterOf(w')
  {
    hide RegisterOf, ShiftNibble, Divide, BitsOf;
    var high := [false, false, true, true];
    var low := [n / 8 % 2 == 1, n / 4 % 2 == 1, n / 2 % 2 == 1, n % 2 == 1];
    var w1 := ShiftNibble(w, false, false, true, true);
    assert (data + [0x30 + n])[..|data|] == data;
    DigitBits(n);
    DivideAppend(seq(32, _ => true), MessageBits(data), high + low);
    DivideAppend(RegisterOf(w), high, low);
    NibbleStep(w, false, false, true, true);
    NibbleStep(w1, n / 8 % 2 == 1, n / 4 % 2 == 1, n / 2 % 2 == 1, n % 2 == 1);
  }

  lemma DigitWords()
    ensures ShiftDigit(0xFFFF_FFFF, 1) == 0x9EFB_CF93 && ShiftDigit(0x9EFB_CF93, 2) == 0x3FEC_5E6A
    ensures ShiftDigit(0x3FEC_5E6A, 3) == 0xD952_F164 && ShiftDigit(0xD952_F164, 4) == 0xA695_C4AA
    ensures ShiftDigit(0xA695_C4AA, 5) == 0xBD9A_B747 && ShiftDigit(0xBD9A_B747, 6) == 0xD8F0_6C8F
    ensures ShiftDigit(0xD8F0_6C8F, 7) == 0x0D8A_14C4 && ShiftDigit(0x0D8A_14C4, 8) == 0x49E3_C2FB
    ensures ShiftDigit(0x49E3_C2FB, 9) == 0x0376_E6E7
  {}

  lemma EmptyRemainder()
    ensures Remainder([]) == RegisterOf(0xFFFF_FFFF)
  {}

  /** The digits 1 to 9 in ASCII, by which CRCs are catalogued, have the remainder of CRC-32/MPEG-2. */
  lemma {:induction false} CheckValue()
    ensures Remainder([0x31, 0x32, 0x33, 0x34, 0x35, 0x36, 0x37, 0x38, 0x39]) == RegisterOf(0x0376_E6E7)
  {
    hide RegisterOf, Remainder, ShiftDigit;
    var s: seq<byte> := [0x31, 0x32, 0x33, 0x34, 0x35, 0x36, 0x37, 0x38, 0x39];
    EmptyRemainder();
    DigitWords();
    DigitStep([], 0xFFFF_FFFF, s[..1], 0x9EFB_CF93, 1);
    DigitStep(s[..1], 0x9EFB_CF93, s[..2], 0x3FEC_5E6A, 2);
    DigitStep(s[..2], 0x3FEC_5E6A, s[..3], 0xD952_F164, 3);
    DigitStep(s[..3], 0xD952_F164, s[..4], 0xA695_C4AA, 4);
    DigitStep(s[..4], 0xA695_C4AA, s[..5], 0xBD9A_B747, 5);
    DigitStep(s[..5], 0xBD9A_B747, s[..6], 0xD8F0_6C8F, 6);
    DigitStep(s[..6], 0xD8F0_6C8F, s[..7], 0x0D8A_14C4, 7);
    DigitStep(s[..7], 0x0D8A_14C4, s[..8], 0x49E3_C2FB, 8);
    DigitStep(s[..8], 0x49E3_C2FB, s[..9], 0x0376_E6E7, 9);
    assert s[..9] == s;
  }
}
