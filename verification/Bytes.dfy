/** Bytes, two's-complement integers and the little-endian layout of src/sdk/util/little_endian.h. */
module Bytes {

  /** What the protocol allows a message to measure. */
  const MAX_MESSAGE_SIZE: nat := 65472

  type Byte = b: int | 0 <= b < 0x100
  type Bytes = seq<Byte>
  type UInt16 = n: int | 0 <= n < 0x1_0000
  type Int32 = n: int | -0x8000_0000 <= n < 0x8000_0000

  datatype Option<+T> = None | Some(value: T)

  /** Nothing, or the one thing. */
  function Listed<T>(o: Option<T>): seq<T>
  {
    if o.Some? then [o.value] else []
  }

  datatype Result<+T> = Ok(value: T) | Err(reason: string)

  /** The conversion a C++ cast to int32_t performs. */
  function ToInt32(n: int): (r: Int32)
    ensures (r - n) % 0x1_0000_0000 == 0
  {
    var m := n % 0x1_0000_0000;
    if m < 0x8000_0000 then m else m - 0x1_0000_0000
  }

  /** The bytes write_16_t stores; the argument is truncated to 16 bits first. */
  function Put16(n: nat): (b: Bytes)
    ensures |b| == 2
  {
    [n % 0x100, n / 0x100 % 0x100]
  }

  function Get16(b: Bytes): UInt16
    requires |b| >= 2
  {
    var low: int, high: int := b[0], b[1];
    low + 0x100 * high
  }

  /** The bytes write_32_t stores: the two halves of the two's-complement pattern, low half first. */
  function Put32(n: Int32): (b: Bytes)
    ensures |b| == 4
  {
    var m := n % 0x1_0000_0000;
    Put16(m % 0x1_0000) + Put16(m / 0x1_0000)
  }

  function Get32(b: Bytes): Int32
    requires |b| >= 4
  {
    var low: int, high: int := Get16(b), Get16(b[2..]);
    ToInt32(low + 0x1_0000 * high)
  }

  /** Reading back a 16-bit field gives the value modulo 2^16, whatever bytes follow it. */
  lemma Get16Put16(n: nat, rest: Bytes)
    ensures Get16(Put16(n) + rest) == n % 0x1_0000
  {
  }

  lemma Get32Put32(n: Int32, rest: Bytes)
    ensures Get32(Put32(n) + rest) == n
  {
    WordsOf(n);
    Get32Words(n % 0x1_0000_0000 % 0x1_0000, n % 0x1_0000_0000 / 0x1_0000, rest);
  }

  lemma WordsOf(n: Int32)
    ensures var m := n % 0x1_0000_0000;
            m / 0x1_0000 < 0x1_0000 && ToInt32(m % 0x1_0000 + 0x1_0000 * (m / 0x1_0000)) == n
  {
  }

  lemma Get32Words(low: UInt16, high: UInt16, rest: Bytes)
    ensures Get32(Put16(low) + Put16(high) + rest) == ToInt32(low as int + 0x1_0000 * (high as int))
  {
    hide *;
    Get32Halves(Put16(low), Put16(high), rest);
    Get16Put16(low, []);
    Get16Put16(high, []);
    assert Put16(low) + [] == Put16(low) && Put16(high) + [] == Put16(high);
  }

  lemma Get32Halves(low: Bytes, high: Bytes, rest: Bytes)
    requires |low| == |high| == 2
    ensures var l: int, h: int := Get16(low), Get16(high); Get32(low + high + rest) == ToInt32(l + 0x1_0000 * h)
  {
  }

  /** Stores `src` at `pos`, the effect of std::copy or memcpy into a buffer; nothing else changes. */
  method Store(buf: array<Byte>, pos: nat, src: Bytes)
    requires pos + |src| <= buf.Length
    modifies buf
    ensures buf[..] == old(buf[..pos]) + src + old(buf[pos + |src|..])
  {
    var i := 0;
    while i < |src|
      invariant 0 <= i <= |src|
      invariant buf[..] == old(buf[..pos]) + src[..i] + old(buf[pos + i..])
    {
      buf[pos + i] := src[i];
      i := i + 1;
    }
    assert src[..i] == src;
  }
}
