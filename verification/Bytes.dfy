/** Bytes, and the big-endian numbers of the RFB protocol. */
module Bytes {

  type Byte = b: int | 0 <= b < 256

  function U16(b: seq<Byte>): (n: nat)
    requires |b| == 2
    ensures n < 0x1_0000
  {
    (b[0] as int) * 256 + (b[1] as int)
  }

  function U32(b: seq<Byte>): (n: nat)
    requires |b| == 4
    ensures n < 0x1_0000_0000
  {
    U16([b[0], b[1]]) * 0x1_0000 + U16([b[2], b[3]])
  }

  /** The same four bytes as a two's complement number. */
  function S32(b: seq<Byte>): (n: int)
    requires |b| == 4
    ensures -0x8000_0000 <= n < 0x8000_0000
  {
    if b[0] < 128 then U32(b) else U32(b) - 0x1_0000_0000
  }

  function Put16(n: nat): (b: seq<Byte>)
    requires n < 0x1_0000
    ensures |b| == 2 && U16(b) == n
  {
    [n / 256, n % 256]
  }

  function Put32(n: nat): (b: seq<Byte>)
    requires n < 0x1_0000_0000
    ensures |b| == 4 && U32(b) == n
  {
    var hi, lo := Put16(n / 0x1_0000), Put16(n % 0x1_0000);
    assert [hi[0], hi[1]] == hi && [lo[0], lo[1]] == lo;
    hi + lo
  }

  /** The sign bit is the top bit of the first byte. */
  lemma SignOf(b: seq<Byte>)
    requires |b| == 4
    ensures b[0] < 128 <==> U32(b) < 0x8000_0000
  {
  }

  lemma Put32Signed(n: nat)
    requires n < 0x1_0000_0000
    ensures S32(Put32(n)) == if n < 0x8000_0000 then n else n - 0x1_0000_0000
  {
    SignOf(Put32(n));
  }

  /** Bit `i` of a byte, as in `b >> i & 1`. */
  function BitAt(b: nat, i: nat): (bit: nat)
    ensures bit < 2
    decreases i
  {
    if i == 0 then b % 2 else BitAt(b / 2, i - 1)
  }

  /** A JavaScript typed array over part of a buffer: no copy, it shows what the buffer holds at any time. */
  datatype ByteView = ByteView(buffer: array<Byte>, at: nat, len: nat)
  {
    predicate Fits() {
      at + len <= buffer.Length
    }

    function Seen(): (b: seq<Byte>)
      requires Fits()
      reads buffer
      ensures |b| == len
    {
      buffer[at..at + len]
    }
  }
}
