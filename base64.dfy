/**
 * The URL handed to the renderer: `new Buffer(url).toString('base64')`,
 * that is, the UTF-8 bytes of the URL in the base64 encoding of section 4
 * of RFC 4648 (standard alphabet, `=` padding).
 */
module Base64 {
  import opened Wrappers

  type byte = x: int | 0 <= x < 256
  type sextet = x: int | 0 <= x < 64

  /** Table 1 of RFC 4648: the character for a 6-bit value. */
  function Symbol(v: sextet): char {
    if v < 26 then ('A' as int + v) as char
    else if v < 52 then ('a' as int + (v - 26)) as char
    else if v < 62 then ('0' as int + (v - 52)) as char
    else if v == 62 then '+'
    else '/'
  }

  /** The 6-bit value of a character of the alphabet. */
  function SymbolValue(c: char): Option<sextet> {
    if 'A' <= c <= 'Z' then Some(c as int - 'A' as int)
    else if 'a' <= c <= 'z' then Some(c as int - 'a' as int + 26)
    else if '0' <= c <= '9' then Some(c as int - '0' as int + 52)
    else if c == '+' then Some(62)
    else if c == '/' then Some(63)
    else None
  }

  predicate IsSymbol(c: char) {
    SymbolValue(c).Some?
  }

  lemma SymbolRoundTrip(v: sextet)
    ensures SymbolValue(Symbol(v)) == Some(v)
  {
  }

  /** Four characters for three bytes. */
  function EncodeGroup(b0: byte, b1: byte, b2: byte): string {
    [Symbol(b0 / 4), Symbol((b0 % 4) * 16 + b1 / 16), Symbol((b1 % 16) * 4 + b2 / 64), Symbol(b2 % 64)]
  }

  /** Every character is of the alphabet or the padding. */
  predicate InAlphabet(s: string) {
    forall i :: 0 <= i < |s| ==> IsSymbol(s[i]) || s[i] == '='
  }

  lemma SymbolsInAlphabet(s: string)
    requires forall i :: 0 <= i < |s| ==> s[i] == '=' || exists v: sextet :: s[i] == Symbol(v)
    ensures InAlphabet(s)
  {
    forall i | 0 <= i < |s| && s[i] != '='
      ensures IsSymbol(s[i])
    {
      var v: sextet :| s[i] == Symbol(v);
      SymbolRoundTrip(v);
    }
  }

  lemma AlphabetConcat(a: string, b: string)
    requires InAlphabet(a) && InAlphabet(b)
    ensures InAlphabet(a + b)
  {
    forall i | 0 <= i < |a + b|
      ensures IsSymbol((a + b)[i]) || (a + b)[i] == '='
    {
      if i < |a| {
        assert (a + b)[i] == a[i];
      } else {
        assert (a + b)[i] == b[i - |a|];
      }
    }
  }

  /** Base64 of `bytes`: a group of four characters per three bytes, and a
      last group padded with `=` for one or two leftover bytes. */
  function Encode(bytes: seq<byte>): (r: string)
    ensures |r| == (|bytes| + 2) / 3 * 4
    ensures InAlphabet(r)
    decreases |bytes|
  {
    if |bytes| == 0 then ""
    else if |bytes| == 1 then
      var r := PadOne(bytes[0]);
      SymbolsInAlphabet(r);
      r
    else if |bytes| == 2 then
      var r := PadTwo(bytes[0], bytes[1]);
      SymbolsInAlphabet(r);
      r
    else
      var g := EncodeGroup(bytes[0], bytes[1], bytes[2]);
      SymbolsInAlphabet(g);
      AlphabetConcat(g, Encode(bytes[3..]));
      g + Encode(bytes[3..])
  }

  /** Decoding, the inverse the renderer applies to the `--url-base64-encoded`
      argument: groups of four characters, `=` padding only in the last one,
      and, as in the canonical encoding of section 3.5 of RFC 4648, no
      set bit left over in a padded group. */
  function Decode(s: string): Option<seq<byte>>
    decreases |s|
  {
    if s == [] then Some([])
    else if |s| < 4 then None
    else
      var group := DecodeQuad(s[..4], |s| == 4);
      var rest := Decode(s[4..]);
      if group.None? || rest.None? then None else Some(group.value + rest.value)
  }

  /** The one to three bytes of a group of four characters. */
  function DecodeQuad(q: string, last: bool): Option<seq<byte>>
    requires |q| == 4
  {
    var v0, v1, v2, v3 := SymbolValue(q[0]), SymbolValue(q[1]), SymbolValue(q[2]), SymbolValue(q[3]);
    if v0.None? || v1.None? then None
    else
      var b0: byte := v0.value * 4 + v1.value / 16;
      if last && q[2] == '=' && q[3] == '=' then
        if v1.value % 16 == 0 then Some([b0]) else None
      else if v2.None? then None
      else
        var b1: byte := (v1.value % 16) * 16 + v2.value / 4;
        if last && q[3] == '=' then
          if v2.value % 4 == 0 then Some([b0, b1]) else None
        else if v3.None? then None
        else Some([b0, b1, (v2.value % 4) * 64 + v3.value])
  }

  /** Decoding undoes encoding, for every byte sequence. */
  lemma {:induction false} DecodeEncode(bytes: seq<byte>)
    ensures Decode(Encode(bytes)) == Some(bytes)
    decreases |bytes|
  {
    if |bytes| == 1 {
      DecodeEncodeOne(bytes);
    } else if |bytes| == 2 {
      DecodeEncodeTwo(bytes);
    } else if |bytes| >= 3 {
      var tail := bytes[3..];
      calc {
        Decode(Encode(bytes));
        { EncodeStep(bytes); }
        Decode(EncodeGroup(bytes[0], bytes[1], bytes[2]) + Encode(tail));
        { DecodeEncode(tail); DecodeGroupThen(bytes[0], bytes[1], bytes[2], Encode(tail), tail); }
        Some([bytes[0], bytes[1], bytes[2]] + tail);
        { assert bytes == [bytes[0], bytes[1], bytes[2]] + tail; }
        Some(bytes);
      }
    }
  }

  /** Encoding undoes decoding: a string that decodes is the encoding of
      its bytes, so no other string decodes to them. */
  lemma {:induction false} EncodeDecode(s: string)
    requires Decode(s).Some?
    ensures Encode(Decode(s).value) == s
    decreases |s|
  {
    if s != [] {
      var q, rest := s[..4], s[4..];
      var g := DecodeQuad(q, |s| == 4).value;
      EncodeQuad(q, |s| == 4);
      assert s == q + rest;
      if |s| == 4 {
        assert rest == [] && Decode(rest) == Some([]);
        assert Decode(s).value == g;
      } else {
        var r := Decode(rest).value;
        EncodeDecode(rest);
        assert Decode(s).value == g + r;
        assert g == [g[0], g[1], g[2]];
        assert (g + r)[..3] == g && (g + r)[3..] == r;
        EncodeStep(g + r);
      }
    }
  }

  /** A group that decodes is the encoding of its bytes; only a last group
      holds fewer than three. */
  lemma EncodeQuad(q: string, last: bool)
    requires |q| == 4 && DecodeQuad(q, last).Some?
    ensures var g := DecodeQuad(q, last).value;
      && 1 <= |g| <= 3 && (|g| < 3 ==> last)
      && (|g| == 1 ==> PadOne(g[0]) == q)
      && (|g| == 2 ==> PadTwo(g[0], g[1]) == q)
      && (|g| == 3 ==> EncodeGroup(g[0], g[1], g[2]) == q)
  {
    if last && q[2] == '=' && q[3] == '=' {
      EncodeQuadOne(q);
    } else if last && q[3] == '=' {
      EncodeQuadTwo(q);
    } else {
      EncodeQuadFull(q, last);
    }
  }

  lemma EncodeQuadOne(q: string)
    requires |q| == 4 && q[2] == '=' && q[3] == '=' && DecodeQuad(q, true).Some?
    ensures DecodeQuad(q, true) == Some([SymbolValue(q[0]).value * 4 + SymbolValue(q[1]).value / 16])
    ensures PadOne(DecodeQuad(q, true).value[0]) == q
  {
    var v0, v1 := SymbolValue(q[0]).value, SymbolValue(q[1]).value;
    SymbolOfValue(q[0]);
    SymbolOfValue(q[1]);
    OneSymbolBits(v0, v1);
    assert q == [q[0], q[1], q[2], q[3]];
  }

  lemma EncodeQuadTwo(q: string)
    requires |q| == 4 && q[2] != '=' && q[3] == '=' && DecodeQuad(q, true).Some?
    ensures var v0, v1, v2 := SymbolValue(q[0]).value, SymbolValue(q[1]).value, SymbolValue(q[2]).value;
      DecodeQuad(q, true) == Some([v0 * 4 + v1 / 16, (v1 % 16) * 16 + v2 / 4])
    ensures var g := DecodeQuad(q, true).value; PadTwo(g[0], g[1]) == q
  {
    var v0, v1, v2 := SymbolValue(q[0]).value, SymbolValue(q[1]).value, SymbolValue(q[2]).value;
    SymbolOfValue(q[0]);
    SymbolOfValue(q[1]);
    SymbolOfValue(q[2]);
    TwoSymbolBits(v0, v1, v2);
    assert q == [q[0], q[1], q[2], q[3]];
  }

  lemma EncodeQuadFull(q: string, last: bool)
    requires |q| == 4 && !(last && q[3] == '=') && DecodeQuad(q, last).Some?
    ensures var v0, v1 := SymbolValue(q[0]).value, SymbolValue(q[1]).value;
      var v2, v3 := SymbolValue(q[2]).value, SymbolValue(q[3]).value;
      DecodeQuad(q, last) == Some([v0 * 4 + v1 / 16, (v1 % 16) * 16 + v2 / 4, (v2 % 4) * 64 + v3])
    ensures var g := DecodeQuad(q, last).value; EncodeGroup(g[0], g[1], g[2]) == q
  {
    var v0, v1 := SymbolValue(q[0]).value, SymbolValue(q[1]).value;
    var v2, v3 := SymbolValue(q[2]).value, SymbolValue(q[3]).value;
    SymbolOfValue(q[0]);
    SymbolOfValue(q[1]);
    SymbolOfValue(q[2]);
    SymbolOfValue(q[3]);
    FourSymbolBits(v0, v1, v2, v3);
    assert q == [q[0], q[1], q[2], q[3]];
  }

  lemma SymbolOfValue(c: char)
    requires SymbolValue(c).Some?
    ensures Symbol(SymbolValue(c).value) == c
  {
  }

  /** The bit arithmetic of decoding a group with two `=`. */
  lemma OneSymbolBits(v0: sextet, v1: sextet)
    requires v1 % 16 == 0
    ensures var b0 := v0 * 4 + v1 / 16;
      b0 / 4 == v0 && (b0 % 4) * 16 == v1
  {
  }

  /** The bit arithmetic of decoding a group with one `=`. */
  lemma TwoSymbolBits(v0: sextet, v1: sextet, v2: sextet)
    requires v2 % 4 == 0
    ensures var b0, b1 := v0 * 4 + v1 / 16, (v1 % 16) * 16 + v2 / 4;
      b0 / 4 == v0 && (b0 % 4) * 16 + b1 / 16 == v1 && (b1 % 16) * 4 == v2
  {
  }

  /** The bit arithmetic of decoding a full group. */
  lemma FourSymbolBits(v0: sextet, v1: sextet, v2: sextet, v3: sextet)
    ensures var b0, b1, b2 := v0 * 4 + v1 / 16, (v1 % 16) * 16 + v2 / 4, (v2 % 4) * 64 + v3;
      && b0 / 4 == v0 && (b0 % 4) * 16 + b1 / 16 == v1
      && (b1 % 16) * 4 + b2 / 64 == v2 && b2 % 64 == v3
  {
  }

  lemma EncodeStep(bytes: seq<byte>)
    requires |bytes| >= 3
    ensures Encode(bytes) == EncodeGroup(bytes[0], bytes[1], bytes[2]) + Encode(bytes[3..])
  {
  }

  lemma DecodeGroupThen(b0: byte, b1: byte, b2: byte, rest: string, tail: seq<byte>)
    requires Decode(rest) == Some(tail)
    ensures Decode(EncodeGroup(b0, b1, b2) + rest) == Some([b0, b1, b2] + tail)
  {
    var s := EncodeGroup(b0, b1, b2) + rest;
    assert s[..4] == EncodeGroup(b0, b1, b2) && s[4..] == rest;
    DecodeGroup(b0, b1, b2, |s| == 4);
  }

  /** A last group decodes by itself. */
  lemma DecodeLast(q: string, bytes: seq<byte>)
    requires |q| == 4 && DecodeQuad(q, true) == Some(bytes)
    ensures Decode(q) == Some(bytes)
  {
    assert q[..4] == q && q[4..] == [];
    assert bytes + [] == bytes;
  }

  /** The bit arithmetic of one leftover byte. */
  lemma OneByteBits(b0: byte)
    ensures (b0 / 4) * 4 + ((b0 % 4) * 16) / 16 == b0
  {
  }

  /** The bit arithmetic of two leftover bytes. */
  lemma TwoByteBits(b0: byte, b1: byte)
    ensures (b0 / 4) * 4 + ((b0 % 4) * 16 + b1 / 16) / 16 == b0
    ensures (((b0 % 4) * 16 + b1 / 16) % 16) * 16 + ((b1 % 16) * 4) / 4 == b1
  {
  }

  /** The bit arithmetic of a full group. */
  lemma ThreeByteBits(b0: byte, b1: byte, b2: byte)
    ensures (b0 / 4) * 4 + ((b0 % 4) * 16 + b1 / 16) / 16 == b0
    ensures (((b0 % 4) * 16 + b1 / 16) % 16) * 16 + ((b1 % 16) * 4 + b2 / 64) / 4 == b1
    ensures (((b1 % 16) * 4 + b2 / 64) % 4) * 64 + b2 % 64 == b2
  {
  }

  /** The last group of one leftover byte, and of two. */
  function PadOne(b0: byte): string {
    [Symbol(b0 / 4), Symbol((b0 % 4) * 16), '=', '=']
  }

  function PadTwo(b0: byte, b1: byte): string {
    [Symbol(b0 / 4), Symbol((b0 % 4) * 16 + b1 / 16), Symbol((b1 % 16) * 4), '=']
  }

  lemma DecodePadOne(b0: byte)
    ensures DecodeQuad(PadOne(b0), true) == Some([b0])
  {
    SymbolRoundTrip(b0 / 4);
    SymbolRoundTrip((b0 % 4) * 16);
    OneByteBits(b0);
  }

  lemma DecodePadTwo(b0: byte, b1: byte)
    ensures DecodeQuad(PadTwo(b0, b1), true) == Some([b0, b1])
  {
    var v1: sextet, v2: sextet := (b0 % 4) * 16 + b1 / 16, (b1 % 16) * 4;
    SymbolRoundTrip(b0 / 4);
    SymbolRoundTrip(v1);
    SymbolRoundTrip(v2);
    TwoByteBits(b0, b1);
  }

  lemma DecodeEncodeOne(bytes: seq<byte>)
    requires |bytes| == 1
    ensures Decode(Encode(bytes)) == Some(bytes)
  {
    assert Encode(bytes) == PadOne(bytes[0]);
    DecodePadOne(bytes[0]);
    assert bytes == [bytes[0]];
    DecodeLast(PadOne(bytes[0]), bytes);
  }

  lemma DecodeEncodeTwo(bytes: seq<byte>)
    requires |bytes| == 2
    ensures Decode(Encode(bytes)) == Some(bytes)
  {
    assert Encode(bytes) == PadTwo(bytes[0], bytes[1]);
    DecodePadTwo(bytes[0], bytes[1]);
    assert bytes == [bytes[0], bytes[1]];
    DecodeLast(PadTwo(bytes[0], bytes[1]), bytes);
  }

  lemma DecodeGroup(b0: byte, b1: byte, b2: byte, last: bool)
    ensures DecodeQuad(EncodeGroup(b0, b1, b2), last) == Some([b0, b1, b2])
  {
    var v1: sextet, v2: sextet := (b0 % 4) * 16 + b1 / 16, (b1 % 16) * 4 + b2 / 64;
    SymbolRoundTrip(b0 / 4);
    SymbolRoundTrip(v1);
    SymbolRoundTrip(v2);
    SymbolRoundTrip(b2 % 64);
    ThreeByteBits(b0, b1, b2);
  }
}

/** The UTF-8 form of a string, as `new Buffer(string)` produces it. */
module Utf8 {
  import opened Base64

  function EncodeChar(c: char): (r: seq<byte>)
    ensures 1 <= |r| <= 4
    ensures c as int < 0x80 ==> r == [c as int]
  {
    var n := c as int;
    if n < 0x80 then [n]
    else if n < 0x800 then [0xC0 + n / 0x40, 0x80 + n % 0x40]
    else if n < 0x10000 then [0xE0 + n / 0x1000, 0x80 + (n / 0x40) % 0x40, 0x80 + n % 0x40]
    else [0xF0 + n / 0x40000, 0x80 + (n / 0x1000) % 0x40, 0x80 + (n / 0x40) % 0x40, 0x80 + n % 0x40]
  }

  function EncodeString(s: string): (r: seq<byte>)
    ensures |s| <= |r| <= 4 * |s|
  {
    if s == [] then [] else EncodeChar(s[0]) + EncodeString(s[1..])
  }
}
