/**
 * Strict UTF-8 as Python's `bytes.decode('utf-8')` applies it: a byte
 * sequence decodes only if it is a concatenation of well-formed sequences
 * (shortest form, no surrogates, nothing above U+10FFFF); otherwise the
 * call raises `UnicodeDecodeError`, modelled as `None`.
 */
module Utf8 {
  import opened Wrappers

  /** An octet. */
  type byte = b: int | 0 <= b < 256

  predicate IsContinuation(b: byte) { 0x80 <= b <= 0xBF }

  /** The second byte of a sequence led by `b0`, with the narrower ranges that rule out overlong forms, surrogates and values above U+10FFFF. */
  predicate SecondByteFits(b0: byte, b1: byte) {
    if b0 == 0xE0 then 0xA0 <= b1 <= 0xBF
    else if b0 == 0xED then 0x80 <= b1 <= 0x9F
    else if b0 == 0xF0 then 0x90 <= b1 <= 0xBF
    else if b0 == 0xF4 then 0x80 <= b1 <= 0x8F
    else IsContinuation(b1)
  }

  /** The first character of `s` and the number of bytes it takes, if `s` starts with a well-formed sequence. */
  function DecodeFirst(s: seq<byte>): (r: Option<(char, nat)>)
    requires s != []
    ensures r.Some? ==> 1 <= r.value.1 <= 4 && r.value.1 <= |s|
  {
    var b0: int := s[0];
    if b0 < 0x80 then
      Some((b0 as char, 1))
    else if 0xC2 <= b0 <= 0xDF then
      if |s| >= 2 && IsContinuation(s[1]) then
        Some((((b0 - 0xC0) * 64 + (s[1] as int - 0x80)) as char, 2))
      else None
    else if 0xE0 <= b0 <= 0xEF then
      if |s| >= 3 && SecondByteFits(s[0], s[1]) && IsContinuation(s[2]) then
        Some(((((b0 - 0xE0) * 64 + (s[1] as int - 0x80)) * 64 + (s[2] as int - 0x80)) as char, 3))
      else None
    else if 0xF0 <= b0 <= 0xF4 then
      if |s| >= 4 && SecondByteFits(s[0], s[1]) && IsContinuation(s[2]) && IsContinuation(s[3]) then
        var v := (((b0 - 0xF0) * 64 + (s[1] as int - 0x80)) * 64 + (s[2] as int - 0x80)) * 64 + (s[3] as int - 0x80);
        Some((v as char, 4))
      else None
    else None
  }

  /** `bytes.decode('utf-8')`; `None` is the `UnicodeDecodeError`. */
  function Decode(s: seq<byte>): (r: Option<string>)
    decreases |s|
  {
    if s == [] then Some([])
    else match DecodeFirst(s)
      case None => None
      case Some((c, n)) =>
        match Decode(s[n..])
        case None => None
        case Some(t) => Some([c] + t)
  }

  /** The UTF-8 form of one character. */
  function EncodeChar(c: char): (r: seq<byte>)
    ensures 1 <= |r| <= 4
    ensures (c as int < 0x80) == (|r| == 1)
  {
    var n := c as int;
    if n < 0x80 then [n]
    else if n < 0x800 then [0xC0 + n / 64, 0x80 + n % 64]
    else if n < 0x10000 then [0xE0 + n / 4096, 0x80 + (n / 64) % 64, 0x80 + n % 64]
    else [0xF0 + n / 262144, 0x80 + (n / 4096) % 64, 0x80 + (n / 64) % 64, 0x80 + n % 64]
  }

  /** `str.encode('utf-8')`. */
  function Encode(s: string): (r: seq<byte>)
    ensures |r| >= |s|
  {
    if s == [] then [] else EncodeChar(s[0]) + Encode(s[1..])
  }

  /** Decoding reads back the first character of an encoding, whatever follows it. */
  lemma DecodeFirstEncodeChar(c: char, rest: seq<byte>)
    ensures DecodeFirst(EncodeChar(c) + rest) == Some((c, |EncodeChar(c)|))
  {
    var n := c as int;
    var s := EncodeChar(c) + rest;
    if n < 0x80 {
    } else if n < 0x800 {
      DecodeTwo(c, s);
    } else if n < 0x10000 {
      DecodeThree(c, s);
    } else {
      DecodeFour(c, s);
    }
  }

  lemma DecodeTwo(c: char, s: seq<byte>)
    requires 0x80 <= c as int < 0x800
    requires |s| >= 2 && s[0] == 0xC0 + c as int / 64 && s[1] == 0x80 + c as int % 64
    ensures DecodeFirst(s) == Some((c, 2))
  {
    var n := c as int;
    assert (s[0] as int - 0xC0) * 64 + (s[1] as int - 0x80) == n;
  }

  lemma DecodeThree(c: char, s: seq<byte>)
    requires 0x800 <= c as int < 0x10000
    requires |s| >= 3 && s[0] == 0xE0 + c as int / 4096
    requires s[1] == 0x80 + (c as int / 64) % 64 && s[2] == 0x80 + c as int % 64
    ensures DecodeFirst(s) == Some((c, 3))
  {
    var n := c as int;
    assert n / 4096 * 64 + (n / 64) % 64 == n / 64;
    assert SecondByteFits(s[0], s[1]);
    assert ((s[0] as int - 0xE0) * 64 + (s[1] as int - 0x80)) * 64 + (s[2] as int - 0x80) == n;
  }

  lemma DecodeFour(c: char, s: seq<byte>)
    requires 0x10000 <= c as int
    requires |s| >= 4 && s[0] == 0xF0 + c as int / 262144 && s[1] == 0x80 + (c as int / 4096) % 64
    requires s[2] == 0x80 + (c as int / 64) % 64 && s[3] == 0x80 + c as int % 64
    ensures DecodeFirst(s) == Some((c, 4))
  {
    var n := c as int;
    assert n / 262144 * 64 + (n / 4096) % 64 == n / 4096;
    assert n / 4096 * 64 + (n / 64) % 64 == n / 64;
    assert SecondByteFits(s[0], s[1]);
    var v := ((s[0] as int - 0xF0) * 64 + (s[1] as int - 0x80)) * 64 + (s[2] as int - 0x80);
    assert v == n / 64;
    assert v * 64 + (s[3] as int - 0x80) == n;
  }

  /** Every string survives an encode/decode round trip. */
  lemma {:induction false} DecodeEncode(s: string)
    ensures Decode(Encode(s)) == Some(s)
  {
    if s != [] {
      var e := EncodeChar(s[0]);
      DecodeFirstEncodeChar(s[0], Encode(s[1..]));
      assert (e + Encode(s[1..]))[|e|..] == Encode(s[1..]);
      DecodeEncode(s[1..]);
      assert s == [s[0]] + s[1..];
    }
  }

  /** Byte values 0 to 127 appear in an encoding exactly where the string holds the ASCII character of that code. */
  lemma {:induction false} EncodeAsciiBytes(s: string, b: byte)
    requires b < 0x80
    ensures (b in Encode(s)) <==> (b as char in s)
  {
    if s != [] {
      EncodeAsciiBytes(s[1..], b);
      var e := EncodeChar(s[0]);
      assert Encode(s) == e + Encode(s[1..]);
      if s[0] as int >= 0x80 {
        assert forall i :: 0 <= i < |e| ==> e[i] >= 0x80;
      }
      assert s == [s[0]] + s[1..];
    }
  }

  /** Text below U+0080 encodes to one byte per character, each its code point. */
  lemma {:induction false} EncodeAscii(s: string)
    requires forall i :: 0 <= i < |s| ==> s[i] as int < 0x80
    ensures |Encode(s)| == |s|
    ensures forall i :: 0 <= i < |s| ==> Encode(s)[i] == s[i] as int
  {
    if s != [] {
      EncodeAscii(s[1..]);
      forall i | 0 <= i < |s| ensures Encode(s)[i] == s[i] as int {
        if i > 0 { assert s[1..][i - 1] == s[i]; }
      }
    }
  }

  /** Encoding is character by character: a concatenation encodes to the concatenated encodings. */
  lemma {:induction false} EncodeAppend(a: string, b: string)
    ensures Encode(a + b) == Encode(a) + Encode(b)
  {
    if a == [] {
      assert a + b == b;
    } else {
      assert (a + b)[0] == a[0] && (a + b)[1..] == a[1..] + b;
      EncodeAppend(a[1..], b);
      assert Encode(a) + Encode(b) == EncodeChar(a[0]) + (Encode(a[1..]) + Encode(b));
    }
  }
}
