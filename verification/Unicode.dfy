// \uXXXX literals: parse_hex4 and utf16_literal_to_utf8, and UTF-8 as section 3 of RFC 3629
// defines it. Bit masks and shifts are written as remainders and quotients.
module Unicode {
  import opened Documents

  predicate IsHex(c: char) { '0' <= c <= '9' || 'A' <= c <= 'F' || 'a' <= c <= 'f' }

  function HexDigit(c: char): (v: nat)
    requires IsHex(c)
    ensures v < 16
  {
    if '0' <= c <= '9' then c as int - '0' as int
    else if 'A' <= c <= 'F' then 10 + c as int - 'A' as int
    else 10 + c as int - 'a' as int
  }

  /** parse_hex4: the first invalid digit makes the result 0. */
  function ParseHex4(t: string): (h: nat)
    requires |t| >= 4
    ensures h < 0x10000
  {
    if IsHex(t[0]) && IsHex(t[1]) && IsHex(t[2]) && IsHex(t[3]) then
      ((HexDigit(t[0]) * 16 + HexDigit(t[1])) * 16 + HexDigit(t[2])) * 16 + HexDigit(t[3])
    else 0
  }

  /** The loop of parse_hex4: digits are added and shifted. */
  method ParseHex4Digits(t: string) returns (h: nat)
    requires |t| >= 4
    ensures h == ParseHex4(t)
  {
    h := 0;
    for i := 0 to 4
      invariant forall k :: 0 <= k < i ==> IsHex(t[k])
      invariant i == 0 ==> h == 0
      invariant i == 1 ==> h == HexDigit(t[0]) * 16
      invariant i == 2 ==> h == (HexDigit(t[0]) * 16 + HexDigit(t[1])) * 16
      invariant i == 3 ==> h == ((HexDigit(t[0]) * 16 + HexDigit(t[1])) * 16 + HexDigit(t[2])) * 16
      invariant i == 4 ==> h == ParseHex4(t)
    {
      if !IsHex(t[i]) { return 0; }
      h := h + HexDigit(t[i]);
      if i < 3 { h := h * 16; }
    }
  }

  predicate HighSurrogate(u: nat) { 0xD800 <= u <= 0xDBFF }

  predicate LowSurrogate(u: nat) { 0xDC00 <= u <= 0xDFFF }

  /** A Unicode scalar value. */
  predicate Scalar(v: nat) { v <= 0x10FFFF && !HighSurrogate(v) && !LowSurrogate(v) }

  /** What a literal denotes, and how many characters of the text it takes. */
  datatype Literal = Literal(code: nat, length: nat)

  /** The decoding half of utf16_literal_to_utf8, on a text with n characters before its end. */
  function ReadLiteral(t: string, n: int): (r: Option<Literal>)
    requires n <= |t|
    ensures r.Some? ==> Scalar(r.value.code) && r.value.length in {6, 12} && r.value.length <= n
    ensures r.Some? && r.value.length == 6 ==> r.value.code < 0x10000
  {
    if n < 6 then None
    else
      var first := ParseHex4(t[2..6]);
      if LowSurrogate(first) then None
      else if !HighSurrogate(first) then Some(Literal(first, 6))
      else if n < 12 || t[6] != '\\' || t[7] != 'u' then None
      else
        var second := ParseHex4(t[8..12]);
        if !LowSurrogate(second) then None
        else Some(Literal(0x10000 + (first % 0x400) * 0x400 + second % 0x400, 12))
  }

  /** How many bytes the encoder uses; a code point above 0x10FFFF cannot arrive here. */
  function Utf8Length(code: nat): (n: nat)
    requires code <= 0x10FFFF
    ensures 1 <= n <= 4
  {
    if code < 0x80 then 1 else if code < 0x800 then 2 else if code < 0x10000 then 3 else 4
  }

  /** The bytes of a code point, section 3 of RFC 3629. */
  function Utf8(code: nat): (bytes: string)
    requires code <= 0x10FFFF
    ensures |bytes| == Utf8Length(code)
  {
    var tail := (c: nat) => (0x80 + c % 64) as char;
    if code < 0x80 then [code as char]
    else if code < 0x800 then [(0xC0 + code / 64) as char, tail(code)]
    else if code < 0x10000 then [(0xE0 + code / 4096) as char, tail(code / 64), tail(code)]
    else [(0xF0 + code / 262144) as char, tail(code / 4096), tail(code / 64), tail(code)]
  }

  /** The code point without its last k groups of six bits. */
  function Shifted(code: nat, k: nat): nat {
    if k == 0 then code else Shifted(code, k - 1) / 64
  }

  /** The marker bits of the first byte. */
  function Mark(length: nat): nat {
    if length == 1 then 0 else if length == 2 then 0xC0 else if length == 3 then 0xE0 else 0xF0
  }

  lemma Quotients(v: nat)
    ensures v / 64 / 64 == v / 4096
    ensures v / 4096 / 64 == v / 262144
  {
  }

  lemma ShiftedIsQuotient(code: nat)
    ensures Shifted(code, 0) == code && Shifted(code, 1) == code / 64
    ensures Shifted(code, 2) == code / 4096 && Shifted(code, 3) == code / 262144
  {
    Quotients(code);
    assert Shifted(code, 1) == Shifted(code, 0) / 64;
    assert Shifted(code, 2) == Shifted(code, 1) / 64;
    assert Shifted(code, 3) == Shifted(code, 2) / 64;
  }

  /** The bytes, from the shifts. */
  lemma Utf8Bytes(code: nat, k: nat)
    requires code <= 0x10FFFF && k < Utf8Length(code)
    ensures var length := Utf8Length(code);
      Utf8(code)[k] as int ==
        if k == 0 then Mark(length) + Shifted(code, length - 1) else 0x80 + Shifted(code, length - 1 - k) % 64
  {
    hide Shifted;
    ShiftedIsQuotient(code);
  }

  /** The encoding loop: continuation bytes from the last to the second, then the first byte. */
  method EncodeUtf8(code: nat, output: array<char>, at: nat) returns (length: nat)
    requires code <= 0x10FFFF && at + Utf8Length(code) <= output.Length
    modifies output
    ensures length == Utf8Length(code)
    ensures output[at..at + length] == Utf8(code)
    ensures output[..at] == old(output[..at]) && output[at + length..] == old(output[at + length..])
  {
    hide Utf8, Utf8Length;
    length := Utf8Length(code);
    var mark := Mark(length);
    var rest, position := code, length - 1;
    ghost var before, bytes := output[..], Utf8(code);
    while position > 0
      invariant 0 <= position < length && rest == Shifted(code, length - 1 - position)
      invariant forall k :: position < k < length ==> output[at + k] == bytes[k]
      invariant forall k :: 0 <= k < output.Length && !(at <= k < at + length) ==> output[k] == before[k]
    {
      Utf8Bytes(code, position);
      output[at + position] := (0x80 + rest % 64) as char;
      rest := rest / 64;
      position := position - 1;
    }
    Utf8Bytes(code, 0);
    output[at] := (mark + rest) as char;
    assert output[at..at + length] == bytes;
    assert output[..at] == before[..at] && output[at + length..] == before[at + length..];
  }

  /** utf16_literal_to_utf8: length 0 refuses the literal and writes nothing. */
  method LiteralToUtf8(t: string, n: int, output: array<char>, at: nat) returns (length: nat, written: nat)
    requires n <= |t|
    requires ReadLiteral(t, n).Some? ==> at + Utf8Length(ReadLiteral(t, n).value.code) <= output.Length
    modifies output
    ensures length == (if ReadLiteral(t, n).Some? then ReadLiteral(t, n).value.length else 0)
    ensures length > 0 ==> written == Utf8Length(ReadLiteral(t, n).value.code) && at + written <= output.Length
    ensures length > 0 ==> output[..at + written] == old(output[..at]) + Utf8(ReadLiteral(t, n).value.code)
  {
    hide ParseHex4, Utf8;
    length, written := 0, 0;
    if n < 6 {
      return;
    }
    var code := 0;
    var first := ParseHex4Digits(t[2..6]);
    if LowSurrogate(first) {
      return;
    }
    if HighSurrogate(first) {
      if n - 6 < 6 || t[6] != '\\' || t[7] != 'u' {
        return;
      }
      var second := ParseHex4Digits(t[8..12]);
      if !LowSurrogate(second) {
        return;
      }
      length, code := 12, 0x10000 + (first % 0x400) * 0x400 + second % 0x400;
    } else {
      length, code := 6, first;
    }
    assert ReadLiteral(t, n) == Some(Literal(code, length));
    written := EncodeUtf8(code, output, at);
    assert output[..at + written] == output[..at] + output[at..at + written];
  }

  /** The value that well-formed UTF-8 text starts with, by the table of section 4 of RFC 3629. */
  function DecodeUtf8(b: string): Option<nat> {
    var tail := (i: nat) => if i < |b| && 0x80 <= b[i] as int <= 0xBF then b[i] as int - 0x80 else -1;
    if b == "" then None
    else
      var first := b[0] as int;
      if first < 0x80 then Some(first)
      else if 0xC2 <= first <= 0xDF && tail(1) >= 0 then Some((first - 0xC0) * 64 + tail(1))
      else if 0xE0 <= first <= 0xEF && tail(1) >= 0 && tail(2) >= 0 then
        var v := (first - 0xE0) * 4096 + tail(1) * 64 + tail(2);
        if v < 0x800 || !Scalar(v) then None else Some(v)
      else if 0xF0 <= first <= 0xF4 && tail(1) >= 0 && tail(2) >= 0 && tail(3) >= 0 then
        var v := (first - 0xF0) * 262144 + tail(1) * 4096 + tail(2) * 64 + tail(3);
        if v < 0x10000 || v > 0x10FFFF then None else Some(v)
      else None
  }

  lemma TwoBytes(v: nat)
    requires 0x80 <= v < 0x800
    ensures DecodeUtf8(Utf8(v)) == Some(v)
  {
    var b := Utf8(v);
    assert b[0] as int == 0xC0 + v / 64 && b[1] as int == 0x80 + v % 64;
  }

  lemma ThreeBytes(v: nat)
    requires 0x800 <= v < 0x10000 && Scalar(v)
    ensures DecodeUtf8(Utf8(v)) == Some(v)
  {
    Quotients(v);
    var x, y, z := v / 4096, v / 64 % 64, v % 64;
    assert v == x * 4096 + y * 64 + z && x < 16;
    var b := Utf8(v);
    assert b == [(0xE0 + x) as char, (0x80 + y) as char, (0x80 + z) as char];
    assert b[0] as int - 0xE0 == x && b[1] as int - 0x80 == y && b[2] as int - 0x80 == z;
  }

  lemma FourDigits(v: nat)
    requires v <= 0x10FFFF
    ensures v == v / 262144 * 262144 + v / 4096 % 64 * 4096 + v / 64 % 64 * 64 + v % 64
    ensures v / 262144 <= 4
  {
    Quotients(v);
    var a, b, c := v / 64, v / 4096, v / 262144;
    assert v == a * 64 + v % 64 && a == b * 64 + a % 64 && b == c * 64 + b % 64;
  }

  lemma DecodeFour(w: nat, x: nat, y: nat, z: nat)
    requires w <= 4 && x < 64 && y < 64 && z < 64
    requires var v := w * 262144 + x * 4096 + y * 64 + z; 0x10000 <= v <= 0x10FFFF
    ensures DecodeUtf8([(0xF0 + w) as char, (0x80 + x) as char, (0x80 + y) as char, (0x80 + z) as char]) ==
      Some(w * 262144 + x * 4096 + y * 64 + z)
  {
    var b := [(0xF0 + w) as char, (0x80 + x) as char, (0x80 + y) as char, (0x80 + z) as char];
    assert b[0] as int == 0xF0 + w && b[1] as int == 0x80 + x && b[2] as int == 0x80 + y && b[3] as int == 0x80 + z;
  }

  lemma FourBytes(v: nat)
    requires 0x10000 <= v <= 0x10FFFF
    ensures DecodeUtf8(Utf8(v)) == Some(v)
  {
    hide DecodeUtf8, Scalar;
    FourDigits(v);
    Quotients(v);
    DecodeFour(v / 262144, v / 4096 % 64, v / 64 % 64, v % 64);
  }

  /** Decoding the bytes gives the scalar value back. */
  lemma Utf8RoundTrip(v: nat)
    requires Scalar(v)
    ensures DecodeUtf8(Utf8(v)) == Some(v)
  {
    if 0x80 <= v < 0x800 { TwoBytes(v); }
    else if 0x800 <= v < 0x10000 { ThreeBytes(v); }
    else if 0x10000 <= v { FourBytes(v); }
  }

  /** Four hexadecimal digits, in either case, that spell u. */
  predicate Spells(h: string, u: nat) {
    && |h| == 4 && (forall i :: 0 <= i < 4 ==> IsHex(h[i]))
    && u == 4096 * HexDigit(h[0]) + 256 * HexDigit(h[1]) + 16 * HexDigit(h[2]) + HexDigit(h[3])
  }

  /** parse_hex4 reads what is spelled. */
  lemma SpelledIsRead(h: string, u: nat)
    requires Spells(h, u)
    ensures |h| == 4 && ParseHex4(h) == u
  {
  }

  /** An invalid digit anywhere makes a literal stand for NUL. */
  lemma UnspelledIsZero(h: string)
    requires |h| == 4 && exists i :: 0 <= i < 4 && !IsHex(h[i])
    ensures ParseHex4(h) == 0
  {
  }

  /** The sixteen digits in both cases. */
  lemma HexDigitExactly(c: char, v: nat)
    requires v < 16
    ensures IsHex(c) && HexDigit(c) == v <==> c == "0123456789abcdef"[v] || c == "0123456789ABCDEF"[v]
  {
  }

  /** A scalar value below 0x10000 is read from one literal. */
  lemma ReadBasic(h: string, v: nat, rest: string, n: int)
    requires Spells(h, v) && Scalar(v)
    requires 6 <= n <= 6 + |rest|
    ensures ReadLiteral("\\u" + h + rest, n) == Some(Literal(v, 6))
  {
    hide ParseHex4, Spells;
    SpelledIsRead(h, v);
    var t := "\\u" + h + rest;
    assert t[2..6] == h;
  }

  /** A scalar value from 0x10000 on is read from the surrogate pair of section 3 of RFC 2781. */
  lemma ReadPair(h: string, l: string, v: nat, rest: string, n: int)
    requires 0x10000 <= v <= 0x10FFFF
    requires Spells(h, 0xD800 + (v - 0x10000) / 0x400) && Spells(l, 0xDC00 + (v - 0x10000) % 0x400)
    requires 12 <= n <= 12 + |rest|
    ensures ReadLiteral("\\u" + h + "\\u" + l + rest, n) == Some(Literal(v, 12))
  {
    hide ParseHex4, Spells;
    SpelledIsRead(h, 0xD800 + (v - 0x10000) / 0x400);
    SpelledIsRead(l, 0xDC00 + (v - 0x10000) % 0x400);
    var t := "\\u" + h + "\\u" + l + rest;
    assert t[2..6] == h && t[6] == '\\' && t[7] == 'u' && t[8..12] == l;
    var w := v - 0x10000;
    assert w / 0x400 < 0x400;
    assert (0xD800 + w / 0x400) % 0x400 == w / 0x400 && (0xDC00 + w % 0x400) % 0x400 == w % 0x400;
  }

  /** The UTF-16 form of a scalar value, section 2.1 of RFC 2781. */
  function Utf16(v: nat): (units: seq<nat>)
    requires Scalar(v)
    ensures forall i :: 0 <= i < |units| ==> units[i] < 0x10000
  {
    if v < 0x10000 then [v] else [0xD800 + (v - 0x10000) / 0x400, 0xDC00 + (v - 0x10000) % 0x400]
  }

  predicate Utf16Form(units: seq<nat>) { exists v :: 0 <= v <= 0x10FFFF && Scalar(v) && Utf16(v) == units }

  lemma OneUnit(u: nat)
    requires u < 0x10000
    ensures Utf16Form([u]) <==> Scalar(u)
  {
    if Scalar(u) { assert Utf16(u) == [u]; }
  }

  lemma TwoUnits(u: nat, w: nat)
    ensures Utf16Form([u, w]) <==> HighSurrogate(u) && LowSurrogate(w)
    ensures HighSurrogate(u) && LowSurrogate(w) ==>
      var v := 0x10000 + (u % 0x400) * 0x400 + w % 0x400; Scalar(v) && Utf16(v) == [u, w]
  {
    if HighSurrogate(u) && LowSurrogate(w) {
      var v := 0x10000 + (u - 0xD800) * 0x400 + (w - 0xDC00);
      assert u % 0x400 == u - 0xD800 && w % 0x400 == w - 0xDC00;
      assert (v - 0x10000) / 0x400 == u - 0xD800 && (v - 0x10000) % 0x400 == w - 0xDC00;
      assert Scalar(v) && Utf16(v) == [u, w];
    }
    if v :| 0 <= v <= 0x10FFFF && Scalar(v) && Utf16(v) == [u, w] {
      assert u == Utf16(v)[0] && w == Utf16(v)[1];
      assert (v - 0x10000) / 0x400 < 0x400;
    }
  }

  /** Is there another literal after the first one? */
  predicate SecondFollows(t: string, n: int)
    requires n <= |t|
  {
    n >= 12 && t[6] == '\\' && t[7] == 'u'
  }

  /** A literal that no other follows is rejected exactly when its unit alone is not UTF-16. */
  lemma RejectsExactlyLoneSurrogates(h: string, u: nat, rest: string, n: int)
    requires Spells(h, u) && 6 <= n <= 6 + |rest| && !SecondFollows("\\u" + h + rest, n)
    ensures var r := ReadLiteral("\\u" + h + rest, n);
      && (r == None <==> !Utf16Form([u]))
      && (r.Some? ==> r.value.length == 6 && Utf16(r.value.code) == [u])
  {
    hide ParseHex4, Spells;
    SpelledIsRead(h, u);
    var t := "\\u" + h + rest;
    assert t[2..6] == h;
    OneUnit(u);
  }

  /** Two literals in a row are rejected exactly when neither the first unit nor the pair is UTF-16. */
  lemma RejectsExactlyBrokenPairs(h: string, u: nat, l: string, w: nat, rest: string, n: int)
    requires Spells(h, u) && Spells(l, w) && 12 <= n <= 12 + |rest|
    ensures var r := ReadLiteral("\\u" + h + "\\u" + l + rest, n);
      && (r == None <==> !Utf16Form([u]) && !Utf16Form([u, w]))
      && (r.Some? ==> Utf16(r.value.code) == if r.value.length == 6 then [u] else [u, w])
  {
    hide ParseHex4, Spells, Utf16Form, Utf16;
    SpelledIsRead(h, u);
    SpelledIsRead(l, w);
    var t := "\\u" + h + "\\u" + l + rest;
    assert t[2..6] == h && t[6] == '\\' && t[7] == 'u' && t[8..12] == l;
    OneUnit(u);
    UnitItself(u);
    TwoUnits(u, w);
  }

  lemma UnitItself(u: nat)
    requires u < 0x10000
    ensures Scalar(u) ==> Utf16(u) == [u]
  {
  }
}
