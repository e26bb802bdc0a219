/**
 Bytes, packets and the memory the C code reads.

 The C functions read through raw pointers and some of them load a few bytes
 past the object they were given.  `Memory` makes that total: an object's own
 bytes, followed by whatever happens to lie behind it.  Every theorem about a
 decoder holds for every choice of those trailing bytes.
 */
module Bytes {
  type byte = x: int | 0 <= x < 256

  const PACKET_SIZE: nat := 188
  const SYNC_BYTE: byte := 0x47
  const PID_COUNT: nat := 8192
  const NULL_PID: nat := 0x1FFF

  /** A C condition as a number. */
  function Flag(b: bool): (n: nat)
    ensures n < 2 && (n == 1 <==> b)
  {
    if b then 1 else 0
  }

  /** Two bytes as a big-endian number. */
  function Join(hi: nat, lo: nat): nat {
    hi * 256 + lo
  }

  type Packet = p: seq<byte> | |p| == PACKET_SIZE
    witness seq(PACKET_SIZE, _ => 0)

  datatype Memory = Memory(bytes: seq<byte>, beyond: nat -> byte) {
    function At(i: nat): byte {
      if i < |bytes| then bytes[i] else beyond(i)
    }

    /** The object that starts `k` bytes further on (pointer arithmetic). */
    function From(k: nat): Memory {
      Memory(if k <= |bytes| then bytes[k..] else [], i => At(k + i))
    }

    /** What `memcpy` of `n` bytes from offset `k` copies. */
    function Slice(k: nat, n: nat): (s: seq<byte>)
      ensures |s| == n
      ensures forall i :: 0 <= i < n ==> s[i] == At(k + i)
      ensures k + n <= |bytes| ==> s == bytes[k..k + n]
    {
      seq<byte>(n, i requires 0 <= i < n => At(k + i))
    }
  }
}
