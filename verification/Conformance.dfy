// The grammar of JSON texts, sections 2 to 7 of RFC 8259, as concrete syntax, and the proof that the
// parser accepts every text of it that is nested within the limit and has no numeral too long for
// the parser's buffer: such a text is one of the laxer grammar of the parser.
module Conformance {
  import opened Texts
  import opened Documents
  import opened Comparing
  import opened Unicode
  import opened StringCodec
  import opened Grammar
  import opened RoundTripping
  import opened Acceptance

  // ----- strings, section 7

  datatype Piece =
    | Raw(c: char)
    | Short(letter: char)
    | Basic(h: string, code: nat)
    | Pair(h: string, l: string, code: nat)

  /** An unescaped character, a two-character escape, or one or two \u literals of a scalar value. */
  predicate WellFormedPiece(p: Piece) {
    match p
    case Raw(c) => c >= ' ' && c != QUOTE && c != BACKSLASH
    case Short(letter) => letter in "\"\\/bfnrt"
    case Basic(h, code) => Scalar(code) && Spells(h, code)
    case Pair(h, l, code) =>
      0x10000 <= code <= 0x10FFFF && Spells(h, Utf16(code)[0]) && Spells(l, Utf16(code)[1])
  }

  function PieceText(p: Piece): string {
    match p
    case Raw(c) => [c]
    case Short(letter) => [BACKSLASH, letter]
    case Basic(h, _) => "\\u" + h
    case Pair(h, l, _) => "\\u" + h + "\\u" + l
  }

  /** The character of a two-character escape, by the table of section 7. */
  function Meant(letter: char): char {
    match letter
    case 'b' => 0x08 as char
    case 'f' => 0x0C as char
    case 'n' => 0x0A as char
    case 'r' => 0x0D as char
    case 't' => 0x09 as char
    case _ => letter
  }

  /** The bytes meant. */
  function PieceBytes(p: Piece): string
    requires WellFormedPiece(p)
  {
    match p
    case Raw(c) => [c]
    case Short(letter) => [Meant(letter)]
    case Basic(_, code) => Utf8(code)
    case Pair(_, _, code) => Utf8(code)
  }

  predicate WellFormedString(ps: seq<Piece>) { forall i :: 0 <= i < |ps| ==> WellFormedPiece(ps[i]) }

  function StringText(ps: seq<Piece>): string {
    if ps == [] then "" else PieceText(ps[0]) + StringText(ps[1..])
  }

  function StringBytes(ps: seq<Piece>): string
    requires WellFormedString(ps)
  {
    if ps == [] then "" else PieceBytes(ps[0]) + StringBytes(ps[1..])
  }

  // ----- numbers, section 6

  datatype Exponent = NoExponent | Exponent(mark: char, sign: string, digits: string)

  datatype Numeral = Numeral(minus: bool, whole: string, fraction: string, exponent: Exponent)

  predicate WellFormedNumeral(n: Numeral) {
    && n.whole != "" && AllDigits(n.whole) && (|n.whole| > 1 ==> n.whole[0] != '0')
    && AllDigits(n.fraction)
    && (n.exponent.Exponent? ==>
          && (n.exponent.mark == 'e' || n.exponent.mark == 'E')
          && (n.exponent.sign == "" || n.exponent.sign == "-" || n.exponent.sign == "+")
          && n.exponent.digits != "" && AllDigits(n.exponent.digits))
  }

  function NumeralText(n: Numeral): string {
    (if n.minus then "-" else "") + n.whole + (if n.fraction == "" then "" else "." + n.fraction)
    + (if n.exponent.NoExponent? then "" else [n.exponent.mark] + n.exponent.sign + n.exponent.digits)
  }

  /** What the C standard promises of strtod: it takes a whole JSON numeral. */
  ghost predicate ScansNumerals(num: Numerics) {
    forall n :: WellFormedNumeral(n) ==> num.scan(NumeralText(n)).length == |NumeralText(n)|
  }

  // ----- values, sections 2 to 5

  datatype Value =
    | Word(meaning: Json)
    | Number(numeral: Numeral)
    | Quoted(pieces: seq<Piece>)
    | List(blank: string, elements: seq<Element>)
    | Record(blank: string, fields: seq<Field>)

  /** A value with the whitespace around it. */
  datatype Element = Element(before: string, value: Value, after: string)

  /** A name and its value, with the whitespace around the name, and around the value. */
  datatype Field = Field(before: string, name: seq<Piece>, behind: string, element: Element)

  predicate Whitespace(w: string) {
    forall i :: 0 <= i < |w| ==> w[i] == ' ' || w[i] == '\t' || w[i] == '\n' || w[i] == '\r'
  }

  predicate WellFormed(v: Value) {
    match v
    case Word(j) => j.Null? || j.True? || j.False?
    case Number(n) => WellFormedNumeral(n)
    case Quoted(ps) => WellFormedString(ps)
    case List(blank, es) => Whitespace(blank) && WellFormedList(es)
    case Record(blank, fs) => Whitespace(blank) && WellFormedRecord(fs)
  }

  predicate WellFormedList(es: seq<Element>) {
    forall i :: 0 <= i < |es| ==> Whitespace(es[i].before) && WellFormed(es[i].value) && Whitespace(es[i].after)
  }

  predicate WellFormedRecord(fs: seq<Field>) {
    forall i :: 0 <= i < |fs| ==>
      var e := fs[i].element;
      && Whitespace(fs[i].before) && WellFormedString(fs[i].name) && Whitespace(fs[i].behind)
      && Whitespace(e.before) && WellFormed(e.value) && Whitespace(e.after)
  }

  // ----- the same value in the grammar of the parser: numerals and strings become their texts

  function Spelled(v: Value): Form
    decreases v, 0
  {
    match v
    case Word(j) => Form.Word(j)
    case Number(n) => Token(NumeralText(n))
    case Quoted(ps) => Form.Quoted(StringText(ps))
    case List(blank, es) => Form.List(blank, SpelledList(es))
    case Record(blank, fs) => Form.Record(blank, SpelledRecord(fs))
  }

  function SpelledList(es: seq<Element>): (r: seq<Part>)
    ensures |r| == |es|
    decreases es, 1
  {
    if es == [] then [] else [Part(es[0].before, Spelled(es[0].value), es[0].after)] + SpelledList(es[1..])
  }

  function SpelledRecord(fs: seq<Field>): (r: seq<Entry>)
    ensures |r| == |fs|
    decreases fs, 1
  {
    if fs == [] then []
    else
      var e := fs[0].element;
      [Entry(fs[0].before, StringText(fs[0].name), fs[0].behind, Part(e.before, Spelled(e.value), e.after))]
      + SpelledRecord(fs[1..])
  }

  /** The text of a value, with what follows it. */
  function ValueText(v: Value, rest: string): string { FormText(Spelled(v), rest) }

  /** The tree that a value denotes; a C string ends at a NUL that a literal spells. */
  function Meaning(num: Numerics, v: Value): Json
    requires WellFormed(v)
    decreases v, 0
  {
    match v
    case Word(j) => j
    case Number(n) => var d := num.scan(NumeralText(n)).value; Json.Number(ToInt(d), d)
    case Quoted(ps) => String(UpToNul(StringBytes(ps)))
    case List(_, es) => Array(ListMeaning(num, es))
    case Record(_, fs) => Object(RecordMeaning(num, fs))
  }

  function ListMeaning(num: Numerics, es: seq<Element>): seq<Json>
    requires WellFormedList(es)
    decreases es, 1
  {
    if es == [] then [] else [Meaning(num, es[0].value)] + ListMeaning(num, es[1..])
  }

  function RecordMeaning(num: Numerics, fs: seq<Field>): seq<Member<Json>>
    requires WellFormedRecord(fs)
    decreases fs, 1
  {
    if fs == [] then []
    else
      [Member(UpToNul(StringBytes(fs[0].name)), Meaning(num, fs[0].element.value))] + RecordMeaning(num, fs[1..])
  }

  /** No numeral has more characters than the parser copies. */
  predicate Fits(v: Value) {
    match v
    case Number(n) => |NumeralText(n)| <= 63
    case List(_, es) => forall i :: 0 <= i < |es| ==> Fits(es[i].value)
    case Record(_, fs) => forall i :: 0 <= i < |fs| ==> Fits(fs[i].element.value)
    case _ => true
  }

  // ----- strings are read

  lemma BasicUnit(h: string, v: nat, u: string, n: int)
    requires Spells(h, v) && Scalar(v) && 6 <= n < 6 + |u|
    ensures Unit("\\u" + h + u, n) == Some((Utf8(v), 6))
  {
    hide ReadLiteral, Utf8;
    ReadBasic(h, v, u, n);
    var t := "\\u" + h + u;
    assert t[0] == BACKSLASH && t[1] == 'u';
  }

  lemma BasicIsRead(h: string, v: nat, u: string)
    requires Spells(h, v) && Scalar(v) && Scan(u).Some?
    ensures Scan("\\u" + h + u) == Some(6 + Scan(u).value)
    ensures Decode("\\u" + h + u, 6 + Scan(u).value) == Prepend(Utf8(v), Decode(u, Scan(u).value))
  {
    hide Scan, Decode, Unit, Utf8, ParseHex4, Prepend;
    var t, n := "\\u" + h + u, 6 + Scan(u).value;
    LiteralIsScanned(h, u);
    assert t[6..] == u;
    BasicUnit(h, v, u, n);
    DecodeStep(t, n);
  }

  lemma PairUnit(h: string, l: string, v: nat, u: string, n: int)
    requires WellFormedPiece(Pair(h, l, v)) && 12 <= n < 12 + |u|
    ensures Unit("\\u" + h + "\\u" + l + u, n) == Some((Utf8(v), 12))
  {
    hide ReadLiteral, Utf8, ParseHex4;
    ReadPair(h, l, v, u, n);
    var t := "\\u" + h + "\\u" + l + u;
    assert t[0] == BACKSLASH && t[1] == 'u';
  }

  lemma PairIsRead(h: string, l: string, v: nat, u: string)
    requires WellFormedPiece(Pair(h, l, v)) && Scan(u).Some?
    ensures var t := "\\u" + h + "\\u" + l + u;
      && Scan(t) == Some(12 + Scan(u).value)
      && Decode(t, 12 + Scan(u).value) == Prepend(Utf8(v), Decode(u, Scan(u).value))
  {
    hide Scan, Decode, Unit, Utf8, ParseHex4, Prepend, WellFormedPiece;
    var t, n := "\\u" + h + "\\u" + l + u, 12 + Scan(u).value;
    PairDigits(h, l, v);
    LiteralIsScanned(l, u);
    LiteralIsScanned(h, "\\u" + l + u);
    PairSplit(h, l, u);
    PairUnit(h, l, v, u, n);
    DecodeStep(t, n);
  }

  lemma PairDigits(h: string, l: string, v: nat)
    requires WellFormedPiece(Pair(h, l, v))
    ensures |h| == |l| == 4 && forall i :: 0 <= i < 4 ==> IsHex(h[i]) && IsHex(l[i])
  {
  }

  lemma PairSplit(h: string, l: string, u: string)
    requires |h| == |l| == 4
    ensures var t := "\\u" + h + "\\u" + l + u;
      |t| == 12 + |u| && "\\u" + h + ("\\u" + l + u) == t && t[12..] == u
  {
  }

  lemma PieceIsRead(p: Piece, u: string)
    requires WellFormedPiece(p) && Scan(u).Some?
    ensures var m := Scan(u).value;
      && Scan(PieceText(p) + u) == Some(|PieceText(p)| + m)
      && Decode(PieceText(p) + u, |PieceText(p)| + m) == Prepend(PieceBytes(p), Decode(u, m))
  {
    hide Scan, Decode, Utf8, ParseHex4, Prepend, Utf16;
    match p
    case Raw(c) => PlainIsRead(c, u);
    case Short(letter) => ShortIsRead(Meant(letter), letter, u);
    case Basic(h, code) => BasicIsRead(h, code, u);
    case Pair(h, l, code) => PairIsRead(h, l, code, u);
  }

  lemma PrependTo(a: string, b: string)
    ensures Prepend(a, Decoded(b)) == Decoded(a + b)
  {
  }

  lemma {:induction false} PiecesAreRead(ps: seq<Piece>, rest: string)
    requires WellFormedString(ps)
    ensures var t := StringText(ps) + ([QUOTE] + rest);
      Scan(t) == Some(|StringText(ps)|) && Decode(t, |StringText(ps)|) == Decoded(StringBytes(ps))
  {
    hide Scan, Decode, Prepend, PieceText, PieceBytes, WellFormedPiece;
    if ps == [] {
      EmptyConcat([QUOTE] + rest);
      EmptyIsRead(rest);
    } else {
      PiecesAreRead(ps[1..], rest);
      PieceIsRead(ps[0], StringText(ps[1..]) + ([QUOTE] + rest));
      PrependTo(PieceBytes(ps[0]), StringBytes(ps[1..]));
      Assoc(PieceText(ps[0]), StringText(ps[1..]), [QUOTE] + rest);
    }
  }

  /** Such a string may stand between quotes, and its content is the bytes up to a NUL that it spells. */
  lemma StringIsEnclosed(ps: seq<Piece>)
    requires WellFormedString(ps)
    ensures Enclosed(StringText(ps)) && Content(StringText(ps)) == UpToNul(StringBytes(ps))
  {
    hide Scan, Decode, UpToNul, StringText, StringBytes, WellFormedString;
    PiecesAreRead(ps, "");
    assert StringText(ps) + ([QUOTE] + "") == StringText(ps) + [QUOTE];
  }

  /** What the second pass cannot read behind any pieces is where the error is reported. */
  lemma {:induction false} BadPieceFails(ps: seq<Piece>, t: string)
    requires WellFormedString(ps) && Scan(t).Some? && Scan(t).value > 0 && Unit(t, Scan(t).value).None?
    ensures var s := StringText(ps) + t;
      Scan(s) == Some(|StringText(ps)| + Scan(t).value) && Decode(s, |StringText(ps)| + Scan(t).value) == Bad(t)
  {
    hide Scan, Decode, PieceText, PieceBytes, WellFormedPiece, Unit;
    if ps == [] {
      EmptyConcat(t);
      DecodeStep(t, Scan(t).value);
    } else {
      BadPieceFails(ps[1..], t);
      PieceIsRead(ps[0], StringText(ps[1..]) + t);
      Assoc(PieceText(ps[0]), StringText(ps[1..]), t);
    }
  }

  lemma BadStringFails(ps: seq<Piece>, t: string)
    requires WellFormedString(ps) && Terminated(t) && Scan(t).Some? && Scan(t).value > 0 && Unit(t, Scan(t).value).None?
    ensures Terminated([QUOTE] + (StringText(ps) + t)) && ParseString([QUOTE] + (StringText(ps) + t)) == Fail(t)
  {
    hide Scan, Decode, Unit, StringText;
    BadPieceFails(ps, t);
    TerminatedConcat(StringText(ps), t);
    TerminatedConcat([QUOTE], StringText(ps) + t);
    assert ([QUOTE] + (StringText(ps) + t))[1..] == StringText(ps) + t;
  }

  // ----- numerals are read

  /** A numeral is made of number characters and starts with a digit or a minus sign. */
  lemma NumeralCharacters(n: Numeral)
    requires WellFormedNumeral(n)
    ensures var t := NumeralText(n);
      t != "" && (t[0] == '-' || IsDigit(t[0])) && forall i :: 0 <= i < |t| ==> NumberChar(t[i])
  {
    var sign, fraction := if n.minus then "-" else "", if n.fraction == "" then "" else "." + n.fraction;
    var exponent := if n.exponent.NoExponent? then "" else [n.exponent.mark] + n.exponent.sign + n.exponent.digits;
    assert AllNumber(sign) && AllNumber(n.whole) && AllNumber(fraction);
    assert AllNumber(exponent);
    assert NumeralText(n) == sign + n.whole + fraction + exponent;
  }

  lemma NumeralIsToken(num: Numerics, n: Numeral)
    requires ScansNumerals(num) && WellFormedNumeral(n) && |NumeralText(n)| <= 63
    ensures NumberToken(num, NumeralText(n))
  {
    hide NumberChar, WellFormedNumeral, NumeralText;
    NumeralCharacters(n);
  }

  /** The numeral of n ones. */
  function Ones(n: nat): Numeral { Numeral(false, seq(n, i => '1'), "", NoExponent) }

  /** 63 ones are a number, 64 are an error. */
  lemma LongNumeralRejected(num: Numerics)
    requires ScansNumerals(num)
    ensures Parse(num, NumeralText(Ones(63)), true).Parsed? && !Parse(num, NumeralText(Ones(64)), true).Parsed?
    ensures WellFormedNumeral(Ones(64))
  {
    hide Parse;
    NumeralAcceptedExactlyWhenItFits(num, Ones(63));
    NumeralAcceptedExactlyWhenItFits(num, Ones(64));
  }

  /** A numeral as the whole text is accepted if and only if the parser's buffer holds all of it. */
  lemma NumeralAcceptedExactlyWhenItFits(num: Numerics, n: Numeral)
    requires ScansNumerals(num) && WellFormedNumeral(n)
    ensures Parse(num, NumeralText(n), true).Parsed? <==> |NumeralText(n)| <= 63
  {
    hide NumberChar, WellFormedNumeral, NumeralText;
    var t := NumeralText(n);
    var s := t + "\0";
    NumeralCharacters(n);
    NumberStart(t);
    assert Skip(SkipBom(s)) == s;
    NotLiteral(s);
    if |t| <= 63 {
      NulIsNoNumber();
      NumeralIsToken(num, n);
      TokenIsRead(num, t, "\0", 0);
    } else {
      LongPrefix(t, "\0", 63);
      var k := num.scan(t[..63]).length;
      if k > 0 {
        assert s[k] == t[k];
        NumberAbove(t[k]);
        SkipNothing(s[k..]);
        assert s[k..][0] == t[k];
      }
    }
  }

  lemma NumberStart(t: string)
    requires t != "" && NumberChar(t[0])
    ensures t[0] > ' ' && Skip(SkipBom(t + "\0")) == t + "\0"
  {
    NumberAbove(t[0]);
  }

  lemma {:induction false} LongPrefix(t: string, rest: string, k: nat)
    requires |t| >= k && forall i :: 0 <= i < |t| ==> NumberChar(t[i])
    ensures NumberPrefix(t + rest, k) == t[..k]
  {
    hide NumberChar;
    if k > 0 {
      LongPrefix(t[1..], rest, k - 1);
      assert (t + rest)[1..] == t[1..] + rest;
      assert t[..k] == [t[0]] + t[1..][..k - 1];
    }
  }

  // ----- values are read

  /** A value of RFC 8259 is one of the parser's grammar, and denotes the same tree there. */
  lemma {:induction false} ValueIsLax(num: Numerics, v: Value)
    requires ScansNumerals(num) && WellFormed(v) && Fits(v)
    ensures Lax(num, Spelled(v)) && Denotes(num, Spelled(v)) == Meaning(num, v)
    decreases v, 3
  {
    hide NumberToken, WellFormedNumeral, NumeralText, WellFormedString, Enclosed, Content, StringText, StringBytes,
      UpToNul, ScansNumerals, Blank, Whitespace, LaxList, LaxRecord, WellFormedList, WellFormedRecord;
    match v
    case Word(_) =>
    case Number(n) => NumeralIsToken(num, n);
    case Quoted(ps) => StringIsEnclosed(ps);
    case List(blank, es) => ListValueIsLax(num, blank, es);
    case Record(blank, fs) => RecordValueIsLax(num, blank, fs);
  }

  lemma {:induction false} ListValueIsLax(num: Numerics, blank: string, es: seq<Element>)
    requires ScansNumerals(num) && WellFormed(Value.List(blank, es)) && Fits(Value.List(blank, es))
    ensures var v := Value.List(blank, es); Lax(num, Spelled(v)) && Denotes(num, Spelled(v)) == Meaning(num, v)
    decreases es, 2
  {
    hide Whitespace, Blank, LaxList, WellFormedList, ScansNumerals, SpelledList, DenotesList, ListMeaning;
    WhitespaceIsBlank(blank);
    ListIsLax(num, es);
  }

  lemma {:induction false} RecordValueIsLax(num: Numerics, blank: string, fs: seq<Field>)
    requires ScansNumerals(num) && WellFormed(Value.Record(blank, fs)) && Fits(Value.Record(blank, fs))
    ensures var v := Value.Record(blank, fs); Lax(num, Spelled(v)) && Denotes(num, Spelled(v)) == Meaning(num, v)
    decreases fs, 2
  {
    hide Whitespace, Blank, LaxRecord, WellFormedRecord, ScansNumerals, SpelledRecord, DenotesRecord, RecordMeaning;
    WhitespaceIsBlank(blank);
    RecordIsLax(num, fs);
  }

  lemma WhitespaceIsBlank(w: string)
    requires Whitespace(w)
    ensures Blank(w)
  {
  }

  lemma {:induction false} ListIsLax(num: Numerics, es: seq<Element>)
    requires ScansNumerals(num) && WellFormedList(es) && forall i :: 0 <= i < |es| ==> Fits(es[i].value)
    ensures LaxList(num, SpelledList(es)) && DenotesList(num, SpelledList(es)) == ListMeaning(num, es)
    decreases es, 1
  {
    hide Lax, Denotes, Meaning, WellFormed, Fits, ScansNumerals, Spelled, Blank, Whitespace;
    if es != [] {
      var e := es[0];
      ValueIsLax(num, e.value);
      WhitespaceIsBlank(e.before);
      WhitespaceIsBlank(e.after);
      ListIsLax(num, es[1..]);
      OnePart(num, Part(e.before, Spelled(e.value), e.after), SpelledList(es[1..]));
    }
  }

  lemma {:induction false} RecordIsLax(num: Numerics, fs: seq<Field>)
    requires ScansNumerals(num) && WellFormedRecord(fs) && forall i :: 0 <= i < |fs| ==> Fits(fs[i].element.value)
    ensures LaxRecord(num, SpelledRecord(fs)) && DenotesRecord(num, SpelledRecord(fs)) == RecordMeaning(num, fs)
    decreases fs, 1
  {
    hide Lax, LaxRecord, Denotes, Meaning, WellFormed, Fits, ScansNumerals, Spelled, Blank, Whitespace, Enclosed, Content,
      StringText, StringBytes, UpToNul, WellFormedString;
    if fs == [] {
      EmptyRecord(num);
    } else {
      var f, e := fs[0], fs[0].element;
      ValueIsLax(num, e.value);
      StringIsEnclosed(f.name);
      WhitespaceIsBlank(f.before);
      WhitespaceIsBlank(f.behind);
      WhitespaceIsBlank(e.before);
      WhitespaceIsBlank(e.after);
      RecordIsLax(num, fs[1..]);
      var entry := Entry(f.before, StringText(f.name), f.behind, Part(e.before, Spelled(e.value), e.after));
      OneEntryIsLax(num, entry);
      OneEntry(num, entry, SpelledRecord(fs[1..]));
    }
  }

  lemma EmptyRecord(num: Numerics)
    ensures LaxRecord(num, [])
  {
  }

  /** The parser accepts a value of the grammar, takes nothing behind it, and gives what it denotes. */
  lemma ValueAccepted(num: Numerics, v: Value, rest: string, depth: nat)
    requires ScansNumerals(num) && WellFormed(v) && Fits(v) && Nests(Meaning(num, v), depth)
    requires Terminated(rest) && !NumberChar(rest[0])
    ensures var s := ValueText(v, rest); Terminated(s) && ParseValue(num, s, depth) == Parsed(Meaning(num, v), rest)
  {
    hide ParseValue, FormText, Lax, Denotes, Meaning, WellFormed, Fits, ScansNumerals, NumberChar;
    ValueIsLax(num, v);
    FormAccepted(num, Spelled(v), rest, depth);
  }

  /**
   * Every JSON text of RFC 8259, whose literals spell scalar values, that is nested within the limit
   * and has no numeral of more than 63 characters is accepted, with the tree that it denotes.
   */
  lemma TextAccepted(num: Numerics, before: string, v: Value, after: string, strict: bool)
    requires ScansNumerals(num) && WellFormed(v) && Fits(v) && Nests(Meaning(num, v), 0)
    requires Whitespace(before) && Whitespace(after)
    ensures Parse(num, before + ValueText(v, after), strict) ==
      Parsed(Meaning(num, v), if strict then "\0" else after + "\0")
  {
    hide Parse, FormText, Lax, Denotes, Meaning, WellFormed, Fits, ScansNumerals;
    ValueIsLax(num, v);
    WhitespaceIsBlank(before);
    WhitespaceIsBlank(after);
    Acceptance.TextAccepted(num, before, Spelled(v), after, strict);
  }

  /** A whole number, written in digits, is read with that number in both fields. */
  lemma IntegerIsRead(num: Numerics, minus: bool, digits: string)
    requires ScansNumerals(num)
    requires var n := Numeral(minus, digits, "", NoExponent);
      WellFormedNumeral(n) && |NumeralText(n)| <= 63 && num.scan(NumeralText(n)).value == Signed(minus, digits) as real
    requires -2147483648 <= Signed(minus, digits) <= 2147483647
    ensures var n := Signed(minus, digits);
      Parse(num, (if minus then "-" else "") + digits, true) == Parsed(Json.Number(n, n as real), "\0")
  {
    hide Parse, FormText;
    var n := Numeral(minus, digits, "", NoExponent);
    var t := (if minus then "-" else "") + digits;
    assert NumeralText(n) == t;
    NumeralIsToken(num, n);
    WholeNumber(num, t);
    ToIntOfWhole(Signed(minus, digits));
  }

  function Signed(minus: bool, digits: string): int
    requires AllDigits(digits)
  {
    if minus then 0 - Texts.Value(digits) else Texts.Value(digits)
  }

  lemma WholeNumber(num: Numerics, t: string)
    requires NumberToken(num, t)
    ensures var d := num.scan(t).value; Parse(num, t, true) == Parsed(Json.Number(ToInt(d), d), "\0")
  {
    hide Parse, NumberToken;
    var w := Whole(false, "", Token(t), "");
    assert WholeText(w) == "" + ("" + (t + "")) == t;
    WholeAccepted(num, w);
  }

  /** -1.5 is read with the integer field -1. */
  lemma FractionIsCutOff(num: Numerics)
    requires ScansNumerals(num) && num.scan("-1.5").value == -1.5
    ensures Parse(num, "-1.5", true) == Parsed(Json.Number(-1, -1.5), "\0")
  {
    hide Parse;
    var n := Numeral(true, "1", "5", NoExponent);
    assert NumeralText(n) == "-1.5";
    NumeralIsToken(num, n);
    WholeNumber(num, "-1.5");
    ToIntIsCutOff(-1.5, -1);
  }

  /** The escapes of two characters, and no others. */
  lemma EscapesExactly(letter: char)
    ensures Unescaped(letter) == if letter in "\"\\/bfnrt" then Some(Meant(letter)) else None
  {
  }

  // ----- what the printer writes of a character

  /** It writes one of the pieces that mean the character. */
  lemma EscapeIsPiece(c: char) returns (p: Piece)
    requires c as int < 0x100 && c != '\0'
    ensures WellFormedPiece(p) && PieceText(p) == EscapeChar(c) && PieceBytes(p) == [c]
  {
    if ShortEscape(c).Some? {
      p := Short(ShortEscape(c).value);
    } else if c < ' ' {
      var h := ['0', '0', HexChar(c as int / 16), HexChar(c as int % 16)];
      p := Basic(h, c as int);
      assert "\\u" + h == EscapeChar(c);
    } else {
      p := Raw(c);
    }
  }

  /** No piece that means it is shorter. */
  lemma EscapeIsShortest(c: char, p: Piece)
    requires WellFormedPiece(p) && PieceBytes(p) == [c]
    ensures |EscapeChar(c)| <= |PieceText(p)|
  {
    hide Spells;
    if p.Short? { assert p.letter in "\"\\/bfnrt"; }
    if p.Basic? { SpelledIsRead(p.h, p.code); }
  }
}
