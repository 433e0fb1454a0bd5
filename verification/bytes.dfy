/** Bytes, little-endian words and 32-bit sums, as the C code uses them. */
module Bytes {

  type byte = x: int | 0 <= x < 256

  const UINT32_LIMIT: nat := 0x1_0000_0000

  function Le(b: seq<byte>): (v: nat)
    requires |b| == 4
    ensures v < UINT32_LIMIT
  {
    var b0: int, b1: int, b2: int, b3: int := b[0], b[1], b[2], b[3];
    b0 + 256 * (b1 + 256 * (b2 + 256 * b3))
  }

  function ToLe(v: nat): (b: seq<byte>)
    requires v < UINT32_LIMIT
    ensures |b| == 4 && Le(b) == v
  {
    [v % 256, v / 256 % 256, v / 256 / 256 % 256, v / 256 / 256 / 256]
  }

  lemma LowByte(x: byte, rest: nat)
    ensures (x + 256 * rest) % 256 == x && (x + 256 * rest) / 256 == rest
  {
  }

  lemma LeInjective(b: seq<byte>)
    requires |b| == 4
    ensures ToLe(Le(b)) == b
  {
    var b0: int, b1: int, b2: int, b3: int := b[0], b[1], b[2], b[3];
    LowByte(b[0], b1 + 256 * (b2 + 256 * b3));
    LowByte(b[1], b2 + 256 * b3);
    LowByte(b[2], b3);
  }

  function WordAt(mem: seq<byte>, at: nat): (v: nat)
    requires at + 4 <= |mem|
    ensures v < UINT32_LIMIT
  {
    Le(mem[at..at + 4])
  }

  /** uint32_t addition */
  function Add32(a: nat, b: nat): (r: nat)
    ensures r < UINT32_LIMIT && (a + b < UINT32_LIMIT ==> r == a + b)
  {
    (a + b) % UINT32_LIMIT
  }

  function Zeros(n: nat): (r: seq<byte>)
    ensures |r| == n && forall i :: 0 <= i < n ==> r[i] == 0
  {
    seq(n, _ => 0)
  }

  /** Memory with some bytes overwritten. */
  function Splice(was: seq<byte>, at: nat, bytes: seq<byte>): (r: seq<byte>)
    requires at + |bytes| <= |was|
    ensures |r| == |was|
  {
    was[..at] + bytes + was[at + |bytes|..]
  }

  /** memcpy of given bytes into memory */
  method WriteBytes(mem: array<byte>, dest: nat, bytes: seq<byte>)
    requires dest + |bytes| <= mem.Length
    modifies mem
    ensures mem[..] == Splice(old(mem[..]), dest, bytes)
  {
    forall k | 0 <= k < |bytes| {
      mem[dest + k] := bytes[k];
    }
  }
}
