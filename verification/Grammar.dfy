// The parser of cJSON.c as functions on the text that is left to read, terminator included, and the
// text that the printer writes.
module Grammar {
  import opened Texts
  import opened Documents
  import opened Comparing
  import opened StringCodec

  // ----- numbers: the C library reads and writes them

  /** What strtod takes from the start of a text, and the double it gives. */
  datatype Scanned = Scanned(length: nat, value: real)

  type Scanner = f: string -> Scanned | forall t :: f(t).length <= |t| witness (t: string) => Scanned(0, 0.0)

  /** sprintf with "%1.15g" and with "%1.17g", and strtod (sscanf reads the same value). */
  datatype Numerics = Numerics(format15: real -> string, format17: real -> string, scan: Scanner)

  predicate NumberChar(c: char) { IsDigit(c) || c in "+-eE." }

  /** The longest prefix of number characters, at most k of them. */
  function NumberPrefix(s: string, k: nat): (t: string)
    ensures t <= s && |t| <= k && forall i :: 0 <= i < |t| ==> NumberChar(t[i])
    ensures |t| < k && |t| < |s| ==> !NumberChar(s[|t|])
  {
    if s == "" || k == 0 || !NumberChar(s[0]) then "" else [s[0]] + NumberPrefix(s[1..], k - 1)
  }

  /** print_number: 15 digits if they read back as the same double, else 17. */
  function NumberText(num: Numerics, d: real): string {
    var r := num.scan(num.format15(d));
    if r.length > 0 && r.value == d then num.format15(d) else num.format17(d)
  }

  /** A text that the parser will hand to strtod as a whole. */
  predicate NumberShape(t: string) {
    && 1 <= |t| <= 25 && (t[0] == '-' || IsDigit(t[0]))
    && forall i :: 0 <= i < |t| ==> NumberChar(t[i])
  }

  /** What the C standard promises of a finite double: 17 digits are enough to read it back. */
  predicate Exact(num: Numerics, d: real) {
    && NumberShape(num.format15(d)) && num.scan(num.format15(d)).length == |num.format15(d)|
    && NumberShape(num.format17(d)) && num.scan(num.format17(d)) == Scanned(|num.format17(d)|, d)
  }

  lemma NumberTextReadsBack(num: Numerics, d: real)
    requires Exact(num, d)
    ensures NumberShape(NumberText(num, d))
    ensures num.scan(NumberText(num, d)) == Scanned(|NumberText(num, d)|, d)
  {
  }

  // ----- what is left of the text

  const NESTING_LIMIT: nat := 1000

  predicate Terminated(s: string) { s != "" && s[|s| - 1] == '\0' }

  /** A value and the text behind it, or the text at the error position. */
  datatype Parsed<+T> = Parsed(value: T, rest: string) | Fail(at: string)

  /** A value takes at least one character, and never the terminator. */
  predicate Advances<T>(r: Parsed<T>, s: string) {
    r.Parsed? ==> |r.rest| < |s| && Terminated(r.rest)
  }

  /** buffer_skip_whitespace: stops on the last character at the latest. */
  function Skip(s: string): (r: string)
    requires Terminated(s)
    ensures |r| <= |s| && Terminated(r)
    ensures |r| > 1 ==> r[0] > ' '
  {
    if |s| > 1 && s[0] <= ' ' then Skip(s[1..]) else s
  }

  lemma SkipTwice(s: string)
    requires Terminated(s)
    ensures Skip(Skip(s)) == Skip(s)
  {
  }

  // ----- the parser

  function ParseNumber(num: Numerics, s: string): (r: Parsed<Json>)
    requires Terminated(s)
    ensures Advances(r, s)
  {
    var t := NumberPrefix(s, 63);
    assert |t| < |s| by { assert !NumberChar(s[|s| - 1]); }
    var n := num.scan(t);
    if n.length == 0 then Fail(s) else Parsed(Number(ToInt(n.value), n.value), s[n.length..])
  }

  /** A C string ends at its first NUL. */
  function UpToNul(s: string): (r: string)
    ensures r <= s && '\0' !in r && (|r| < |s| ==> s[|r|] == '\0')
    ensures '\0' !in s ==> r == s
  {
    if s == "" || s[0] == '\0' then "" else [s[0]] + UpToNul(s[1..])
  }

  function ParseString(s: string): (r: Parsed<string>)
    requires Terminated(s)
    ensures Advances(r, s)
  {
    var t := s[1..];
    if s[0] != QUOTE then Fail(t)
    else match Scan(t)
      case None => Fail(t)
      case Some(n) =>
        match Decode(t, n)
        case Bad(at) => Fail(at)
        case Decoded(out) =>
          assert t[n] == QUOTE && t[|t| - 1] == '\0';
          Parsed(UpToNul(out), t[n + 1..])
  }

  function Literal(s: string): Option<(Json, nat)> {
    if |s| >= 4 && s[..4] == "null" then Some((Null, 4))
    else if |s| >= 5 && s[..5] == "false" then Some((False, 5))
    else if |s| >= 4 && s[..4] == "true" then Some((True, 4))
    else None
  }

  /** A literal does not contain the terminator. */
  lemma LiteralEnds(s: string)
    requires Terminated(s) && Literal(s).Some?
    ensures Literal(s).value.1 < |s|
  {
    var n := Literal(s).value.1;
    assert s[..n][n - 1] == s[n - 1] != '\0';
  }

  /** A first child in front of the others. */
  function Cons<T>(x: T, r: Parsed<seq<T>>): Parsed<seq<T>> {
    match r
    case Parsed(xs, rest) => Parsed([x] + xs, rest)
    case Fail(at) => r
  }

  function ParseValue(num: Numerics, s: string, depth: nat): (r: Parsed<Json>)
    requires Terminated(s)
    ensures Advances(r, s)
    decreases |s|, 1
  {
    if Literal(s).Some? then
      LiteralEnds(s);
      Parsed(Literal(s).value.0, s[Literal(s).value.1..])
    else if s[0] == QUOTE then
      match ParseString(s)
      case Fail(at) => Fail(at)
      case Parsed(t, rest) => Parsed(String(t), rest)
    else if s[0] == '-' || IsDigit(s[0]) then ParseNumber(num, s)
    else if s[0] == '[' then ParseArray(num, s, depth)
    else if s[0] == '{' then ParseObject(num, s, depth)
    else Fail(s)
  }

  function ParseArray(num: Numerics, s: string, depth: nat): (r: Parsed<Json>)
    requires Terminated(s) && s[0] == '['
    ensures Advances(r, s)
    decreases |s|, 0
  {
    if depth >= NESTING_LIMIT then Fail(s)
    else
      var t := Skip(s[1..]);
      if t[0] == ']' then Parsed(Array([]), t[1..])
      else match ParseElements(num, t, depth + 1)
        case Fail(at) => Fail(at)
        case Parsed(items, rest) => Parsed(Array(items), rest)
  }

  /** The elements up to and including the closing bracket. */
  function ParseElements(num: Numerics, s: string, depth: nat): (r: Parsed<seq<Json>>)
    requires Terminated(s)
    ensures Advances(r, s)
    decreases |s|, 2
  {
    match ParseValue(num, Skip(s), depth)
    case Fail(at) => Fail(at)
    case Parsed(v, after) =>
      var u := Skip(after);
      if u[0] == ',' then Cons(v, ParseElements(num, u[1..], depth))
      else if u[0] == ']' then Parsed([v], u[1..])
      else Fail(u)
  }

  function ParseObject(num: Numerics, s: string, depth: nat): (r: Parsed<Json>)
    requires Terminated(s) && s[0] == '{'
    ensures Advances(r, s)
    decreases |s|, 0
  {
    if depth >= NESTING_LIMIT then Fail(s)
    else
      var t := Skip(s[1..]);
      if t[0] == '}' then Parsed(Object([]), t[1..])
      else match ParseMembers(num, t, depth + 1)
        case Fail(at) => Fail(at)
        case Parsed(ms, rest) => Parsed(Object(ms), rest)
  }

  /** One name and its value. */
  function ParseMember(num: Numerics, s: string, depth: nat): (r: Parsed<Member<Json>>)
    requires Terminated(s)
    ensures Advances(r, s)
    decreases |s|, 2
  {
    match ParseString(Skip(s))
    case Fail(at) => Fail(at)
    case Parsed(name, after) =>
      var u := Skip(after);
      if u[0] != ':' then Fail(u)
      else match ParseValue(num, Skip(u[1..]), depth)
        case Fail(at) => Fail(at)
        case Parsed(v, rest) => Parsed(Member(name, v), rest)
  }

  /** The members up to and including the closing brace. */
  function ParseMembers(num: Numerics, s: string, depth: nat): (r: Parsed<seq<Member<Json>>>)
    requires Terminated(s)
    ensures Advances(r, s)
    decreases |s|, 3
  {
    match ParseMember(num, s, depth)
    case Fail(at) => Fail(at)
    case Parsed(m, after) =>
      var u := Skip(after);
      if u[0] == ',' then Cons(m, ParseMembers(num, u[1..], depth))
      else if u[0] == '}' then Parsed([m], u[1..])
      else Fail(u)
  }

  // ----- one round of the loops

  lemma ElementsCases(num: Numerics, s: string, d: nat)
    requires Terminated(s)
    ensures var r, all := ParseValue(num, Skip(s), d), ParseElements(num, s, d);
      if r.Fail? then all == Fail(r.at)
      else
        var u := Skip(r.rest);
        if u[0] == ',' then |u| > 1 && all == Cons(r.value, ParseElements(num, u[1..], d))
        else if u[0] == ']' then |u| > 1 && all == Parsed([r.value], u[1..])
        else all == Fail(u)
  {
    hide ParseValue, Skip;
  }

  lemma MembersCases(num: Numerics, s: string, d: nat)
    requires Terminated(s)
    ensures var r, all := ParseMember(num, s, d), ParseMembers(num, s, d);
      if r.Fail? then all == Fail(r.at)
      else
        var u := Skip(r.rest);
        if u[0] == ',' then |u| > 1 && all == Cons(r.value, ParseMembers(num, u[1..], d))
        else if u[0] == '}' then |u| > 1 && all == Parsed([r.value], u[1..])
        else all == Fail(u)
  {
    hide ParseMember, Skip;
  }

  lemma MemberCases(num: Numerics, s: string, d: nat)
    requires Terminated(s) && ParseString(Skip(s)).Parsed? && Skip(ParseString(Skip(s)).rest)[0] == ':'
    ensures var name := ParseString(Skip(s));
      var u := Skip(name.rest);
      && |u| > 1
      && var r := ParseValue(num, Skip(u[1..]), d);
         r.Parsed? ==> ParseMember(num, s, d) == Parsed(Member(name.value, r.value), r.rest)
  {
    hide ParseString, ParseValue, Skip;
  }

  /** No literal starts with one of these characters. */
  lemma NotLiteral(s: string)
    requires s != "" && s[0] != 'n' && s[0] != 'f' && s[0] != 't'
    ensures Literal(s).None?
  {
    if |s| >= 4 { assert s[..4][0] == s[0]; }
    if |s| >= 5 { assert s[..5][0] == s[0]; }
  }

  lemma ValueCases(num: Numerics, s: string, d: nat)
    requires Terminated(s)
    ensures Literal(s).Some? ==>
      Literal(s).value.1 < |s| && ParseValue(num, s, d) == Parsed(Literal(s).value.0, s[Literal(s).value.1..])
    ensures s[0] == QUOTE ==>
      ParseValue(num, s, d) == (match ParseString(s) case Fail(at) => Fail(at) case Parsed(t, rest) => Parsed(String(t), rest))
    ensures s[0] == '-' || IsDigit(s[0]) ==> ParseValue(num, s, d) == ParseNumber(num, s)
    ensures s[0] == '[' ==> ParseValue(num, s, d) == ParseArray(num, s, d)
    ensures s[0] == '{' ==> ParseValue(num, s, d) == ParseObject(num, s, d)
    ensures ParseValue(num, s, d).Parsed? ==> Literal(s).Some? || s[0] == QUOTE || s[0] == '-' || IsDigit(s[0]) || s[0] == '[' || s[0] == '{'
  {
    if s[0] != 'n' && s[0] != 'f' && s[0] != 't' { NotLiteral(s); }
    if Literal(s).Some? { LiteralEnds(s); }
  }

  lemma StringParts(s: string, out: string, rest: string)
    requires Terminated(s) && ParseString(s) == Parsed(out, rest)
    ensures s[0] == QUOTE && Scan(s[1..]).Some? && Decode(s[1..], Scan(s[1..]).value).Decoded?
    ensures out == UpToNul(Decode(s[1..], Scan(s[1..]).value).out)
    ensures Scan(s[1..]).value + 2 <= |s| && rest == s[Scan(s[1..]).value + 2..]
  {
    hide Decode, UpToNul, Scan;
    var t, n := s[1..], Scan(s[1..]).value;
    assert t[n + 1..] == s[n + 2..];
  }

  lemma StringInFront(s: string, n: nat, more: string)
    requires Terminated(s) && s[0] == QUOTE && Scan(s[1..]) == Some(n) && n + 2 < |s| && Decode(s[1..], n).Decoded?
    requires Terminated(more)
    ensures Terminated(s[..n + 2] + more)
    ensures ParseString(s[..n + 2] + more) == Parsed(UpToNul(Decode(s[1..], n).out), more)
  {
    hide Scan, Decode, UpToNul;
    var t := s[..n + 2] + more;
    assert t[0] == QUOTE && t[1..][..n + 1] == s[1..][..n + 1] && t[1..][n + 1..] == more;
    ScanLocal(s[1..], t[1..]);
    DecodeLocal(s[1..], t[1..], n);
  }

  /** What may follow a value. */
  predicate Stops(rest: string)
    requires Terminated(rest)
  {
    var u := Skip(rest);
    |u| == 1 || u[0] == ',' || u[0] == ']' || u[0] == '}'
  }

  // ----- the nesting limit

  /** No accepted value is nested beyond the limit, counted from the depth it is read at. */
  lemma {:induction false} ParsedWithinLimit(num: Numerics, s: string, depth: nat)
    requires Terminated(s) && depth <= NESTING_LIMIT
    ensures var r := ParseValue(num, s, depth); r.Parsed? ==> depth + Height(r.value) <= NESTING_LIMIT
    decreases |s|, 1
  {
    hide ParseString, ParseNumber, ParseElements, ParseMembers, Skip, IsDigit, Literal;
    if Literal(s).Some? {
      LiteralIsFlat(s);
    } else if s[0] == '-' || IsDigit(s[0]) {
      NumberIsFlat(num, s);
    } else if s[0] == '[' && depth < NESTING_LIMIT {
      if Skip(s[1..])[0] != ']' { ElementsWithinLimit(num, Skip(s[1..]), depth + 1); }
    } else if s[0] == '{' && depth < NESTING_LIMIT {
      if Skip(s[1..])[0] != '}' { MembersWithinLimit(num, Skip(s[1..]), depth + 1); }
    }
  }

  lemma LiteralIsFlat(s: string)
    requires Literal(s).Some?
    ensures Height(Literal(s).value.0) == 0
  {
  }

  lemma NumberIsFlat(num: Numerics, s: string)
    requires Terminated(s)
    ensures var r := ParseNumber(num, s); r.Parsed? ==> Height(r.value) == 0
  {
  }

  lemma {:induction false} ElementsWithinLimit(num: Numerics, s: string, depth: nat)
    requires Terminated(s) && depth <= NESTING_LIMIT
    ensures var r := ParseElements(num, s, depth); r.Parsed? ==> depth + HeightOfItems(r.value) <= NESTING_LIMIT
    decreases |s|, 2
  {
    hide ParseValue, Skip;
    ParsedWithinLimit(num, Skip(s), depth);
    var r := ParseValue(num, Skip(s), depth);
    if r.Parsed? {
      var u := Skip(r.rest);
      if u[0] == ',' { ElementsWithinLimit(num, u[1..], depth); }
    }
  }

  lemma {:induction false} MembersWithinLimit(num: Numerics, s: string, depth: nat)
    requires Terminated(s) && depth <= NESTING_LIMIT
    ensures var r := ParseMembers(num, s, depth); r.Parsed? ==> depth + HeightOfMembers(r.value) <= NESTING_LIMIT
    decreases |s|, 3
  {
    hide ParseMember, Skip;
    MemberWithinLimit(num, s, depth);
    var r := ParseMember(num, s, depth);
    if r.Parsed? {
      var u := Skip(r.rest);
      if u[0] == ',' { MembersWithinLimit(num, u[1..], depth); }
    }
  }

  lemma {:induction false} MemberWithinLimit(num: Numerics, s: string, depth: nat)
    requires Terminated(s) && depth <= NESTING_LIMIT
    ensures var r := ParseMember(num, s, depth); r.Parsed? ==> depth + Height(r.value.value) <= NESTING_LIMIT
    decreases |s|, 2
  {
    hide ParseValue, ParseString, Skip;
    var name := ParseString(Skip(s));
    if name.Parsed? {
      var u := Skip(name.rest);
      if u[0] == ':' { ParsedWithinLimit(num, Skip(u[1..]), depth); }
    }
  }

  /** skip_utf8_bom. */
  function SkipBom(s: string): (r: string)
    requires Terminated(s)
    ensures Terminated(r)
  {
    if |s| > 4 && s[0] as int == 0xEF && s[1] as int == 0xBB && s[2] as int == 0xBF then s[3..] else s
  }

  /** cJSON_ParseWithOpts on a C string. */
  function Parse(num: Numerics, text: string, strict: bool): Parsed<Json> {
    var s := text + "\0";
    match ParseValue(num, Skip(SkipBom(s)), 0)
    case Fail(at) => Fail(at)
    case Parsed(v, after) =>
      if !strict then Parsed(v, after)
      else
        var u := Skip(after);
        if u[0] == '\0' then Parsed(v, u) else Fail(u)
  }

  // ----- the printer

  function Tabs(n: nat): (s: string)
    ensures |s| == n && forall i :: 0 <= i < n ==> s[i] == '\t'
  {
    seq(n, i => '\t')
  }

  // The pieces that formatting adds.

  function Newline(fmt: bool): string { if fmt then "\n" else "" }

  function Indent(fmt: bool, n: nat): string { if fmt then Tabs(n) else "" }

  function Colon(fmt: bool): string { if fmt then ":\t" else ":" }

  /** The comma behind an element or member that is not the last of n. */
  function Separator(n: nat, fmt: bool): string {
    if n == 1 then "" else if fmt then ", " else ","
  }

  function Comma(n: nat): string { if n == 1 then "" else "," }

  /** The text of a tree printed at a nesting depth. */
  function Text(num: Numerics, j: Json, fmt: bool, depth: nat): string
    decreases j, 1
  {
    match j
    case Invalid => ""
    case Null => "null"
    case False => "false"
    case True => "true"
    case Number(_, d) => NumberText(num, d)
    case String(s) => Quote(s)
    case Array(items) => "[" + ItemsText(num, items, fmt, depth + 1) + "]"
    case Object(ms) => "{" + Newline(fmt) + MembersText(num, ms, fmt, depth + 1) + Indent(fmt, depth) + "}"
  }

  function ItemsText(num: Numerics, items: seq<Json>, fmt: bool, depth: nat): string
    decreases items, 0
  {
    if items == [] then ""
    else Text(num, items[0], fmt, depth) + Separator(|items|, fmt) + ItemsText(num, items[1..], fmt, depth)
  }

  function MemberText(num: Numerics, m: Member<Json>, comma: string, fmt: bool, depth: nat): string
    decreases m, 0
  {
    Indent(fmt, depth) + Quote(m.key) + Colon(fmt) + Text(num, m.value, fmt, depth) + comma + Newline(fmt)
  }

  function MembersText(num: Numerics, ms: seq<Member<Json>>, fmt: bool, depth: nat): string
    decreases ms, 0
  {
    if ms == [] then "" else MemberText(num, ms[0], Comma(|ms|), fmt, depth) + MembersText(num, ms[1..], fmt, depth)
  }

  /** Trees that print_value accepts and that print without loss. */
  predicate Printable(num: Numerics, j: Json) {
    match j
    case Invalid => false
    case Number(i, d) => Exact(num, d) && i == ToInt(d)
    case String(s) => '\0' !in s
    case Array(items) => forall i :: 0 <= i < |items| ==> Printable(num, items[i])
    case Object(ms) => PrintableMembers(num, ms)
    case _ => true
  }

  predicate PrintableMembers(num: Numerics, ms: seq<Member<Json>>) {
    forall i :: 0 <= i < |ms| ==> '\0' !in ms[i].key && Printable(num, ms[i].value)
  }
}
