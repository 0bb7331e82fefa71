/** Byte strings and the big-endian integers that the Hotline protocol puts in them. */
module Bytes {
  type byte = x: int | 0 <= x < 256
  type bytes = seq<byte>

  // Go's fixed-size arrays
  type bytes2 = b: bytes | |b| == 2 witness [0, 0]
  type bytes4 = b: bytes | |b| == 4 witness [0, 0, 0, 0]
  type bytes8 = b: bytes | |b| == 8 witness [0, 0, 0, 0, 0, 0, 0, 0]
  type bytes16 = b: bytes | |b| == 16 witness Zeros(16)
  type bytes32 = b: bytes | |b| == 32 witness Zeros(32)

  type u16 = n: nat | n < TWO16
  type u32 = n: nat | n < TWO32

  const TWO16 := 0x1_0000
  const TWO32 := 0x1_0000_0000

  function U16(b: bytes): (n: u16)
    requires |b| == 2
  {
    256 * (b[0] as int) + b[1]
  }

  function U32(b: bytes): (n: u32)
    requires |b| == 4
  {
    TWO16 * (U16(b[..2]) as int) + U16(b[2..])
  }

  // Sums and differences of Go's unsigned integers

  function Add16(a: u16, b: u16): u16 {
    if a + b < TWO16 then a + b else a + b - TWO16
  }

  function Sub16(a: u16, b: u16): u16 {
    if a >= b then a - b else a - b + TWO16
  }

  function Add32(a: u32, b: u32): u32 {
    if a + b < TWO32 then a + b else a + b - TWO32
  }

  /** PutUint16(uint16(n)): the conversion keeps the low 16 bits. */
  function PutU16(n: nat): (b: bytes2)
    ensures U16(b) == n % TWO16
    ensures n < TWO16 ==> U16(b) == n
  {
    var m := n % TWO16;
    [m / 256, m % 256]
  }

  /** The two halves of a 32-bit number. */
  lemma Halves(m: u32)
    ensures m / TWO16 < TWO16 && m % TWO16 < TWO16
    ensures TWO16 * (m / TWO16) + m % TWO16 == m
    ensures (m / TWO16) % TWO16 == m / TWO16 && (m % TWO16) % TWO16 == m % TWO16
  {
  }

  /** PutUint32(uint32(n)): the conversion keeps the low 32 bits. */
  function PutU32(n: nat): (b: bytes4)
    ensures U32(b) == n % TWO32
    ensures n < TWO32 ==> U32(b) == n
  {
    var m: u32 := n % TWO32;
    Halves(m);
    var hi, lo := PutU16(m / TWO16), PutU16(m % TWO16);
    assert (hi + lo)[..2] == hi && (hi + lo)[2..] == lo;
    hi + lo
  }

  function Zeros(n: nat): (b: bytes)
    ensures |b| == n
  {
    seq(n, _ => 0)
  }

  /** The concatenation of a list of byte strings. */
  function Concat(parts: seq<bytes>): bytes {
    if parts == [] then [] else parts[0] + Concat(parts[1..])
  }

  lemma Associates(a: bytes, b: bytes, c: bytes)
    ensures a + (b + c) == a + b + c
  {
  }

  lemma ConcatCons(first: bytes, parts: seq<bytes>)
    ensures Concat([first] + parts) == first + Concat(parts)
  {
    assert ([first] + parts)[1..] == parts;
  }

  lemma {:induction false} ConcatAppend(parts: seq<bytes>, last: bytes)
    ensures Concat(parts + [last]) == Concat(parts) + last
  {
    if parts == [] {
      assert Concat([last]) == last + Concat([]);
    } else {
      ConcatAppend(parts[1..], last);
      assert (parts + [last])[1..] == parts[1..] + [last];
    }
  }
}
