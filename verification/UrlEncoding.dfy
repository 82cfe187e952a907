/** Percent-encoding of names, section 2.1 of RFC 3986. src/sdk/util/string_encode.cc. */
module UrlEncoding {
  import opened Bytes

  /** StringEncodeLevel. */
  const NODE_NAME: int := 2
  const ASCII: int := 3
  const URL: int := 4

  const PERCENT: Byte := 0x25

  predicate Alphanumeric(c: Byte) { 0x30 <= c <= 0x39 || 0x41 <= c <= 0x5a || 0x61 <= c <= 0x7a }

  /** The SAFE table. */
  function Safe(c: Byte): int
  {
    if c >= 0x80 then 2
    else if Alphanumeric(c) then 4
    else if c == PERCENT then 1
    else if c < 0x20 || c in {0x21, 0x27, 0x2a, 0x2f, 0x5c, 0x60} || 0x3a <= c <= 0x3f then 0
    else 3
  }

  function HexDigit(n: int): Byte
    requires 0 <= n < 16
  {
    if n < 10 then 0x30 + n else 0x41 + n - 10
  }

  /** The HEX2DEC table. */
  function HexValue(c: Byte): (n: int)
    ensures -1 <= n < 16
  {
    if 0x30 <= c <= 0x39 then c as int - 0x30
    else if 0x41 <= c <= 0x46 then c as int - 0x37
    else if 0x61 <= c <= 0x66 then c as int - 0x57
    else -1
  }

  function EncodeByte(c: Byte, level: int): (e: Bytes)
    ensures |e| == if Safe(c) >= level then 1 else 3
  {
    if Safe(c) >= level then [c] else [PERCENT, HexDigit(c as int / 16), HexDigit(c as int % 16)]
  }

  function Encode(s: Bytes, level: int): Bytes
  {
    if s == [] then [] else EncodeByte(s[0], level) + Encode(s[1..], level)
  }

  /** A percent sign with two hexadecimal digits at the front. */
  predicate StartsEscape(s: Bytes)
  {
    |s| >= 3 && s[0] == PERCENT && HexValue(s[1]) != -1 && HexValue(s[2]) != -1
  }

  function Decode(s: Bytes): Bytes
  {
    if s == [] then []
    else if StartsEscape(s) then [HexValue(s[1]) * 16 + HexValue(s[2])] + Decode(s[3..])
    else [s[0]] + Decode(s[1..])
  }

  lemma EncodeNil(level: int)
    ensures Encode([], level) == []
  {
  }

  lemma EncodeSnoc(s: Bytes, i: nat, level: int)
    requires i < |s|
    ensures Encode(s[..i + 1], level) == Encode(s[..i], level) + EncodeByte(s[i], level)
  {
    assert s[..i + 1] == s[..i] + [s[i]];
    EncodeAppend(s[..i], [s[i]], level);
    assert Encode([s[i]], level) == EncodeByte(s[i], level) + Encode([], level);
  }

  lemma {:induction false} EncodeAppend(a: Bytes, b: Bytes, level: int)
    ensures Encode(a + b, level) == Encode(a, level) + Encode(b, level)
  {
    hide *;
    if a == [] {
      assert a + b == b;
      EncodeNil(level);
    } else {
      EncodeAppend(a[1..], b, level);
      EncodeCons(a, level);
      EncodeCons(a + b, level);
      assert (a + b)[1..] == a[1..] + b;
      var x, y, z := EncodeByte(a[0], level), Encode(a[1..], level), Encode(b, level);
      assert x + (y + z) == (x + y) + z;
    }
  }

  lemma EncodeCons(s: Bytes, level: int)
    requires s != []
    ensures Encode(s, level) == EncodeByte(s[0], level) + Encode(s[1..], level)
  {
  }

  lemma {:induction false} EncodeSize(s: Bytes, level: int)
    ensures |s| <= |Encode(s, level)| <= 3 * |s|
  {
    if s != [] {
      EncodeSize(s[1..], level);
    }
  }

  /** url_encode: what it stores is the encoding, and its buffer of three bytes for every input byte is large enough. */
  method UrlEncode(src: Bytes, level: int) returns (result: Bytes)
    ensures result == Encode(src, level)
  {
    hide Encode, Safe;
    EncodeNil(level);
    if src == [] {
      return [];
    }
    var buf := new Byte[|src| * 3];
    var pos, i := 0, 0;
    while i < |src|
      invariant 0 <= i <= |src| && pos <= 3 * i
      invariant pos == |Encode(src[..i], level)| && buf[..pos] == Encode(src[..i], level)
    {
      EncodeSnoc(src, i, level);
      ghost var before := buf[..pos];
      if Safe(src[i]) >= level {
        buf[pos] := src[i];
        pos := pos + 1;
        assert buf[..pos] == before + [src[i]];
      } else {
        buf[pos], buf[pos + 1], buf[pos + 2] := PERCENT, HexDigit(src[i] as int / 16), HexDigit(src[i] as int % 16);
        pos := pos + 3;
        assert buf[..pos] == before + [PERCENT, HexDigit(src[i] as int / 16), HexDigit(src[i] as int % 16)];
      }
      i := i + 1;
    }
    assert src[..i] == src;
    result := buf[..pos];
  }

  /** url_decode: its first loop stops two bytes before the end, where no escape can start any more. */
  method UrlDecode(src: Bytes) returns (result: Bytes)
    ensures result == Decode(src)
  {
    hide Decode;
    var buf := new Byte[|src|];
    var pos, i := DecodeMost(src, buf);
    pos := CopyRest(src, buf, pos, i);
    DecodeNil();
    result := buf[..pos];
  }

  /** The loop as long as two bytes follow. */
  method DecodeMost(src: Bytes, buf: array<Byte>) returns (pos: nat, i: nat)
    requires buf.Length == |src|
    modifies buf
    ensures pos <= i <= |src| <= i + 2 && buf[..pos] + Decode(src[i..]) == Decode(src)
  {
    hide Decode, HexValue;
    pos, i := 0, 0;
    assert src[0..] == src;
    while i < |src| - 2
      invariant 0 <= pos <= i <= |src|
      invariant buf[..pos] + Decode(src[i..]) == Decode(src)
      decreases |src| - i
    {
      DecodeStep(src, i);
      if src[i] == PERCENT {
        var dec1, dec2 := HexValue(src[i + 1]), HexValue(src[i + 2]);
        if dec1 != -1 && dec2 != -1 {
          Emit(buf, pos, dec1 * 16 + dec2, Decode(src[i + 3..]));
          pos := pos + 1;
          i := i + 3;
          continue;
        }
      }
      Emit(buf, pos, src[i], Decode(src[i + 1..]));
      pos := pos + 1;
      i := i + 1;
    }
  }

  /** The loop over the last bytes. */
  method CopyRest(src: Bytes, buf: array<Byte>, stored: nat, from: nat) returns (pos: nat)
    requires buf.Length == |src| && stored <= from <= |src| <= from + 2
    modifies buf
    ensures pos <= |src| && buf[..pos] + Decode([]) == old(buf[..stored]) + Decode(src[from..])
  {
    hide Decode, HexValue;
    var i := from;
    pos := stored;
    while i < |src|
      invariant 0 <= pos <= i <= |src| && |src| - 2 <= i
      invariant buf[..pos] + Decode(src[i..]) == old(buf[..stored]) + Decode(src[from..])
    {
      DecodeStep(src, i);
      Emit(buf, pos, src[i], Decode(src[i + 1..]));
      pos := pos + 1;
      i := i + 1;
    }
    assert src[i..] == [];
  }

  /** Stores one byte behind what is stored. */
  method Emit(buf: array<Byte>, pos: nat, b: Byte, ghost rest: Bytes)
    requires pos < buf.Length
    modifies buf
    ensures buf[..pos + 1] + rest == old(buf[..pos]) + ([b] + rest)
  {
    buf[pos] := b;
  }

  lemma DecodeNil()
    ensures Decode([]) == []
  {
  }

  lemma DecodeStep(s: Bytes, i: nat)
    requires i < |s|
    ensures Decode(s[i..])
            == if i + 2 < |s| && s[i] == PERCENT && HexValue(s[i + 1]) != -1 && HexValue(s[i + 2]) != -1
               then [HexValue(s[i + 1]) * 16 + HexValue(s[i + 2])] + Decode(s[i + 3..])
               else [s[i]] + Decode(s[i + 1..])
  {
  }

  lemma HexRoundTrip(c: Byte)
    ensures HexValue(HexDigit(c as int / 16)) * 16 + HexValue(HexDigit(c as int % 16)) == c as int
    ensures HexValue(HexDigit(c as int / 16)) != -1 && HexValue(HexDigit(c as int % 16)) != -1
  {
  }

  /** Decoding undoes encoding, at every level, for every byte string. */
  lemma {:induction false} UrlRoundTrip(s: Bytes, level: int)
    requires NODE_NAME <= level <= URL
    ensures Decode(Encode(s, level)) == s
  {
    if s != [] {
      var c, rest := s[0], Encode(s[1..], level);
      UrlRoundTrip(s[1..], level);
      if Safe(c) >= level {
        assert ([c] + rest)[1..] == rest;
      } else {
        HexRoundTrip(c);
        assert (EncodeByte(c, level) + rest)[3..] == rest;
      }
    }
  }

  // ---------------------------------------------------------------- which bytes are escaped, and how

  const UPPER: string := "0123456789ABCDEF"
  const LOWER: string := "0123456789abcdef"
  const SYMBOLS: string := " \"#$&()+,-.@[]^_{|}~"

  predicate Symbol(c: Byte) { c as char in SYMBOLS }

  lemma SymbolIs(c: Byte)
    ensures Symbol(c)
            <==> c in {0x20, 0x22, 0x23, 0x24, 0x26, 0x28, 0x29, 0x2b, 0x2c, 0x2d, 0x2e, 0x40, 0x5b, 0x5d, 0x5e, 0x5f, 0x7b, 0x7c, 0x7d, 0x7e}
  {
  }

  predicate Letter(c: Byte)
  {
    'A' <= c as char <= 'Z' || 'a' <= c as char <= 'z'
  }

  /** The bytes that a level leaves alone: letters and digits; below the highest level also these symbols and DEL; and below
      that, for node names, everything that is not ASCII. */
  predicate Plain(c: Byte, level: int)
  {
    || Letter(c) || '0' <= c as char <= '9'
    || (level <= ASCII && (Symbol(c) || c == 0x7f))
    || (level <= NODE_NAME && c >= 0x80)
  }

  lemma EncodedByte(c: Byte, level: int)
    requires NODE_NAME <= level <= URL
    ensures EncodeByte(c, level) == if Plain(c, level) then [c] else ['%' as int, UPPER[c as int / 16] as int, UPPER[c as int % 16] as int]
  {
    HexIs(c as int / 16);
    HexIs(c as int % 16);
    SafeIs(c, level);
  }

  lemma SafeIs(c: Byte, level: int)
    requires NODE_NAME <= level <= URL
    ensures Safe(c) >= level <==> Plain(c, level)
  {
    hide Symbol;
    SymbolIs(c);
  }

  lemma HexIs(n: int)
    requires 0 <= n < 16
    ensures HexDigit(n) == UPPER[n] as int && HexValue(UPPER[n] as int) == n == HexValue(LOWER[n] as int)
  {
  }

  /** Encoding treats every byte by itself. */
  lemma {:induction false} EncodedAll(s: Bytes, level: int)
    requires NODE_NAME <= level <= URL
    ensures Encode(s, level)
            == if s == [] then []
               else (if Plain(s[0], level) then [s[0]] else ['%' as int, UPPER[s[0] as int / 16] as int, UPPER[s[0] as int % 16] as int])
                    + Encode(s[1..], level)
    ensures (forall c :: c in s ==> Plain(c, level)) ==> Encode(s, level) == s
  {
    hide Plain, EncodeByte;
    if s != [] {
      EncodedByte(s[0], level);
      EncodedAll(s[1..], level);
      assert s == [s[0]] + s[1..];
    }
  }

  /** The byte is the digit `n`, in upper or in lower case. */
  predicate IsDigit(c: Byte, n: int)
    requires 0 <= n < 16
  {
    c as char == UPPER[n] || c as char == LOWER[n]
  }

  predicate Hexadecimal(c: Byte)
  {
    exists n :: 0 <= n < 16 && IsDigit(c, n)
  }

  lemma HexadecimalIs(c: Byte)
    ensures Hexadecimal(c) <==> HexValue(c) != -1
  {
    hide IsDigit, HexValue;
    DigitIs(c);
    if HexValue(c) != -1 {
      assert IsDigit(c, HexValue(c));
    }
  }

  lemma DigitIs(c: Byte)
    ensures forall n :: 0 <= n < 16 ==> (HexValue(c) == n <==> IsDigit(c, n))
  {
  }

  /** A percent sign with two digits of either case stands for their byte; whatever else is in a string stands for itself. */
  lemma DecodedEscape(c: Byte, d: Byte, high: int, low: int, rest: Bytes)
    requires 0 <= high < 16 && 0 <= low < 16 && IsDigit(c, high) && IsDigit(d, low)
    ensures Decode(['%' as int, c, d] + rest) == [high * 16 + low] + Decode(rest)
  {
    hide IsDigit, HexValue;
    DigitIs(c);
    DigitIs(d);
    assert HexValue(c) == high && HexValue(d) == low;
    assert (['%' as int, c, d] + rest)[3..] == rest;
  }

  lemma DecodedPlain(s: Bytes)
    requires s != []
    requires s[0] != '%' as int || |s| < 3 || !Hexadecimal(s[1]) || !Hexadecimal(s[2])
    ensures Decode(s) == [s[0]] + Decode(s[1..])
  {
    hide Hexadecimal, HexValue;
    if |s| >= 3 {
      HexadecimalIs(s[1]);
      HexadecimalIs(s[2]);
    }
  }
}
