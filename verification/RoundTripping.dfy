// Parsing undoes printing, formatted or not.
module RoundTripping {
  import opened Texts
  import opened Documents
  import opened Comparing
  import opened StringCodec
  import opened Grammar

  lemma TerminatedConcat(a: string, rest: string)
    requires Terminated(rest)
    ensures Terminated(a + rest)
  {
  }

  predicate Blank(w: string) { forall i :: 0 <= i < |w| ==> w[i] <= ' ' }

  lemma {:induction false} SkipBlank(w: string, r: string)
    requires Blank(w) && Terminated(r) && r[0] > ' '
    ensures Terminated(w + r) && Skip(w + r) == r
  {
    var s := w + r;
    if w == "" {
      assert s == r;
    } else {
      SkipBlank(w[1..], r);
      assert s[1..] == w[1..] + r;
    }
  }

  // ----- numbers and strings

  lemma {:induction false} PrefixStops(t: string, rest: string, k: nat)
    requires |t| <= k && rest != "" && !NumberChar(rest[0])
    requires forall i :: 0 <= i < |t| ==> NumberChar(t[i])
    ensures NumberPrefix(t + rest, k) == t
  {
    var s := t + rest;
    if t != "" {
      PrefixStops(t[1..], rest, k - 1);
      assert s[1..] == t[1..] + rest;
      assert t == [t[0]] + t[1..];
    }
  }

  lemma NumberReadsBack(num: Numerics, d: real, rest: string, depth: nat)
    requires Exact(num, d) && Terminated(rest) && !NumberChar(rest[0])
    ensures var s := NumberText(num, d) + rest;
      Terminated(s) && ParseValue(num, s, depth) == Parsed(Number(ToInt(d), d), rest)
  {
    var t := NumberText(num, d);
    var s := t + rest;
    NumberTextReadsBack(num, d);
    PrefixStops(t, rest, 63);
    NotLiteral(s);
    assert s[|t|..] == rest;
  }

  lemma {:induction false} NulFree(s: string)
    requires '\0' !in s
    ensures UpToNul(s) == s
  {
  }

  lemma StringReadsBack(s: string, rest: string)
    requires '\0' !in s && Terminated(rest)
    ensures Terminated(Quote(s) + rest) && ParseString(Quote(s) + rest) == Parsed(s, rest)
  {
    hide EscapeText, Scan, Decode, UpToNul;
    var e := EscapeText(s);
    var q := Quote(s) + rest;
    QuoteParts(e, rest);
    EscapedIsRead(s, rest);
    NulFree(s);
  }

  lemma QuoteParts(e: string, rest: string)
    ensures var q := [QUOTE] + e + [QUOTE] + rest; q[0] == QUOTE && q[1..] == e + [QUOTE] + rest
    ensures (e + [QUOTE] + rest)[|e| + 1..] == rest
  {
  }

  // ----- how a printed value starts

  /** Not whitespace and not a closing bracket. */
  lemma TextStart(num: Numerics, j: Json, fmt: bool, depth: nat)
    requires Printable(num, j)
    ensures var t := Text(num, j, fmt, depth);
      t != "" && t[0] > ' ' && t[0] != ']' && t[0] != '}'
  {
    match j
    case Number(_, d) => NumberTextReadsBack(num, d);
    case _ =>
  }

  // ----- arrays and objects

  predicate Nests(j: Json, depth: nat) { depth + Height(j) <= NESTING_LIMIT }

  ghost predicate Reads(num: Numerics, j: Json, fmt: bool, indent: nat, depth: nat, rest: string) {
    var s := Text(num, j, fmt, indent) + rest;
    Terminated(s) && ParseValue(num, s, depth) == Parsed(j, rest)
  }

  lemma {:induction false} ValueReadsBack(num: Numerics, j: Json, fmt: bool, indent: nat, depth: nat, rest: string)
    requires Printable(num, j) && Nests(j, depth)
    requires Terminated(rest) && !NumberChar(rest[0])
    ensures Reads(num, j, fmt, indent, depth, rest)
    decreases j, 1
  {
    var s := Text(num, j, fmt, indent) + rest;
    TerminatedConcat(Text(num, j, fmt, indent), rest);
    match j
    case Null => assert s[..4] == "null" && s[4..] == rest;
    case True =>
      assert s[..4] == "true" && s[4..] == rest;
      assert s[..4][0] == 't' && (|s| >= 5 ==> s[..5][0] == 't');
    case False =>
      assert s[..5] == "false" && s[5..] == rest;
      assert s[..4][0] == 'f';
    case Number(_, d) => NumberReadsBack(num, d, rest, depth);
    case String(t) =>
      StringReadsBack(t, rest);
      NotLiteral(s);
    case Array(items) => ArrayReadsBack(num, items, fmt, indent, depth, rest);
    case Object(ms) => ObjectReadsBack(num, ms, fmt, indent, depth, rest);
  }

  /** The text behind the opening bracket. */
  function ItemsOn(num: Numerics, items: seq<Json>, fmt: bool, indent: nat, rest: string): string {
    ItemsText(num, items, fmt, indent) + ("]" + rest)
  }

  lemma OpenBracket(num: Numerics, items: seq<Json>, fmt: bool, indent: nat, rest: string)
    ensures Text(num, Array(items), fmt, indent) + rest == "[" + ItemsOn(num, items, fmt, indent + 1, rest)
  {
    var t := ItemsText(num, items, fmt, indent + 1);
    Assoc("[" + t, "]", rest);
    Assoc("[", t, "]" + rest);
  }

  lemma ItemsTerminated(num: Numerics, items: seq<Json>, fmt: bool, indent: nat, rest: string)
    requires Terminated(rest)
    ensures Terminated("]" + rest) && Terminated(ItemsOn(num, items, fmt, indent, rest))
    ensures items == [] ==> ItemsOn(num, items, fmt, indent, rest) == "]" + rest
  {
    TerminatedConcat("]", rest);
    TerminatedConcat(ItemsText(num, items, fmt, indent), "]" + rest);
    assert "" + ("]" + rest) == "]" + rest;
  }

  lemma EmptyConcat(s: string)
    ensures "" + s == s
  {
  }

  lemma {:induction false} ArrayReadsBack(num: Numerics, items: seq<Json>, fmt: bool, indent: nat, depth: nat, rest: string)
    requires Printable(num, Array(items)) && Nests(Array(items), depth) && Terminated(rest)
    ensures Reads(num, Array(items), fmt, indent, depth, rest)
    decreases items, 2
  {
    hide Reads, ItemsRead;
    if items != [] { FirstElements(num, items, fmt, indent + 1, depth + 1, rest); }
    ArrayClosed(num, items, fmt, indent, depth, rest);
  }

  /** The text behind the opening bracket reads back as the elements. */
  ghost predicate ItemsRead(num: Numerics, items: seq<Json>, fmt: bool, indent: nat, depth: nat, rest: string) {
    var s := ItemsOn(num, items, fmt, indent, rest);
    Terminated(s) && s[0] > ' ' && s[0] != ']' && ParseElements(num, s, depth) == Parsed(items, rest)
  }

  lemma {:induction false} FirstElements(num: Numerics, items: seq<Json>, fmt: bool, indent: nat, depth: nat, rest: string)
    requires items != [] && Printable(num, Array(items)) && Terminated(rest)
    requires depth + HeightOfItems(items) <= NESTING_LIMIT
    ensures ItemsRead(num, items, fmt, indent, depth, rest)
    decreases items, 1, 1
  {
    ElementsReadBack(num, items, fmt, indent, depth, rest, "");
    EmptyConcat(ItemsOn(num, items, fmt, indent, rest));
    ItemsStart(num, items, fmt, indent, "]" + rest);
  }

  lemma ArrayClosed(num: Numerics, items: seq<Json>, fmt: bool, indent: nat, depth: nat, rest: string)
    requires Terminated(rest) && depth < NESTING_LIMIT
    requires items != [] ==> ItemsRead(num, items, fmt, indent + 1, depth + 1, rest)
    ensures Reads(num, Array(items), fmt, indent, depth, rest)
  {
    ItemsTerminated(num, items, fmt, indent + 1, rest);
    ArrayOpened(num, items, depth, rest, ItemsOn(num, items, fmt, indent + 1, rest));
    OpenBracket(num, items, fmt, indent, rest);
  }

  lemma ItemsStart(num: Numerics, items: seq<Json>, fmt: bool, indent: nat, rest: string)
    requires items != [] && Printable(num, Array(items))
    ensures var s := ItemsText(num, items, fmt, indent) + rest;
      s != "" && s[0] > ' ' && s[0] != ']'
  {
    TextStart(num, items[0], fmt, indent);
    assert (ItemsText(num, items, fmt, indent) + rest)[0] == Text(num, items[0], fmt, indent)[0];
  }

  lemma ArrayOpened(num: Numerics, items: seq<Json>, depth: nat, rest: string, body: string)
    requires Terminated(body) && depth < NESTING_LIMIT
    requires items == [] ==> Skip(body) == "]" + rest
    requires items != [] ==> Skip(body)[0] != ']' && ParseElements(num, Skip(body), depth + 1) == Parsed(items, rest)
    ensures Terminated("[" + body) && ParseValue(num, "[" + body, depth) == Parsed(Array(items), rest)
  {
    hide Skip, ParseElements, Literal;
    var s := "[" + body;
    TerminatedConcat("[", body);
    NotLiteral(s);
    assert s[1..] == body;
    assert ("]" + rest)[1..] == rest;
    assert ParseValue(num, s, depth) == ParseArray(num, s, depth);
  }

  lemma {:induction false} ElementsReadBack(num: Numerics, items: seq<Json>, fmt: bool, indent: nat, depth: nat,
                                            rest: string, blank: string)
    requires items != [] && Printable(num, Array(items)) && Terminated(rest) && Blank(blank)
    requires depth + HeightOfItems(items) <= NESTING_LIMIT
    ensures AllRead(num, items, fmt, indent, depth, rest, blank)
    decreases items, 1, 0
  {
    ElementReadsBack(num, items, fmt, indent, depth, rest, blank);
    if |items| == 1 {
      ElementsEnd(num, items, fmt, indent, depth, rest, blank);
    } else {
      assert Printable(num, Array(items[1..]));
      ElementsReadBack(num, items[1..], fmt, indent, depth, rest, if fmt then " " else "");
      ElementsMore(num, items, fmt, indent, depth, rest, blank);
    }
  }

  /** The elements, behind some whitespace, are read. */
  ghost predicate AllRead(num: Numerics, items: seq<Json>, fmt: bool, indent: nat, depth: nat, rest: string, blank: string) {
    var s := blank + ItemsOn(num, items, fmt, indent, rest);
    Terminated(s) && ParseElements(num, s, depth) == Parsed(items, rest)
  }

  lemma ElementsMore(num: Numerics, items: seq<Json>, fmt: bool, indent: nat, depth: nat, rest: string, blank: string)
    requires |items| > 1 && FirstRead(num, items, fmt, indent, depth, rest, blank)
    requires AllRead(num, items[1..], fmt, indent, depth, rest, if fmt then " " else "")
    ensures AllRead(num, items, fmt, indent, depth, rest, blank)
  {
    var s, after := blank + ItemsOn(num, items, fmt, indent, rest), ItemsAfter(num, items, fmt, indent, rest);
    var more := (if fmt then " " else "") + ItemsOn(num, items[1..], fmt, indent, rest);
    AfterStart(num, items, fmt, indent, rest);
    assert after[0] == ',' && after[1..] == more;
    ElementsStep(num, s, depth, items, after, more, rest);
  }

  /** What follows the first element. */
  function ItemsAfter(num: Numerics, items: seq<Json>, fmt: bool, indent: nat, rest: string): string
    requires items != []
  {
    Separator(|items|, fmt) + ItemsOn(num, items[1..], fmt, indent, rest)
  }

  /** The first element, behind some whitespace, is read. */
  ghost predicate FirstRead(num: Numerics, items: seq<Json>, fmt: bool, indent: nat, depth: nat, rest: string, blank: string)
    requires items != []
  {
    var s, after := blank + ItemsOn(num, items, fmt, indent, rest), ItemsAfter(num, items, fmt, indent, rest);
    Terminated(s) && Terminated(after) && ParseValue(num, Skip(s), depth) == Parsed(items[0], after)
  }

  lemma {:induction false} ElementReadsBack(num: Numerics, items: seq<Json>, fmt: bool, indent: nat, depth: nat,
                                            rest: string, blank: string)
    requires items != [] && Printable(num, Array(items)) && Terminated(rest) && Blank(blank)
    requires depth + HeightOfItems(items) <= NESTING_LIMIT
    ensures FirstRead(num, items, fmt, indent, depth, rest, blank)
    decreases items, 0
  {
    hide ItemsOn, ItemsAfter, ParseValue, NumberChar, Skip, Text;
    ItemFront(num, items, fmt, indent, rest);
    SkipBlank(blank, ItemsOn(num, items, fmt, indent, rest));
    ValueReadsBack(num, items[0], fmt, indent, depth, ItemsAfter(num, items, fmt, indent, rest));
  }

  lemma ItemFront(num: Numerics, items: seq<Json>, fmt: bool, indent: nat, rest: string)
    requires items != [] && Printable(num, Array(items)) && Terminated(rest)
    ensures var t, after := ItemsOn(num, items, fmt, indent, rest), ItemsAfter(num, items, fmt, indent, rest);
      && Terminated(t) && t[0] > ' ' && Terminated(after) && !NumberChar(after[0])
      && t == Text(num, items[0], fmt, indent) + after
  {
    hide Text, ItemsText, Printable;
    ItemsSplit(num, items, fmt, indent, rest);
    ItemsTerminated(num, items, fmt, indent, rest);
    ItemsStart(num, items, fmt, indent, "]" + rest);
    AfterStart(num, items, fmt, indent, rest);
  }

  lemma AfterStart(num: Numerics, items: seq<Json>, fmt: bool, indent: nat, rest: string)
    requires items != []
    ensures var after := ItemsAfter(num, items, fmt, indent, rest);
      if |items| == 1 then after == "]" + rest
      else after[0] == ',' && after[1..] == (if fmt then " " else "") + ItemsOn(num, items[1..], fmt, indent, rest)
    ensures !NumberChar(ItemsAfter(num, items, fmt, indent, rest)[0])
  {
    if |items| == 1 {
      EmptyConcat("]" + rest);
    } else {
      CommaSplit(fmt, ItemsOn(num, items[1..], fmt, indent, rest));
    }
  }

  lemma CommaSplit(fmt: bool, on: string)
    ensures var after := (if fmt then ", " else ",") + on;
      after[0] == ',' && after[1..] == (if fmt then " " else "") + on
  {
  }

  lemma ItemsSplit(num: Numerics, items: seq<Json>, fmt: bool, indent: nat, rest: string)
    requires items != [] && Terminated(rest)
    ensures var after := Separator(|items|, fmt) + ItemsOn(num, items[1..], fmt, indent, rest);
      ItemsOn(num, items, fmt, indent, rest) == Text(num, items[0], fmt, indent) + after && Terminated(after)
  {
    var v, sep, more := Text(num, items[0], fmt, indent), Separator(|items|, fmt), ItemsText(num, items[1..], fmt, indent);
    ItemsTerminated(num, items[1..], fmt, indent, rest);
    Assoc(v + sep, more, "]" + rest);
    Assoc(v, sep, more + ("]" + rest));
    TerminatedConcat(sep, more + ("]" + rest));
  }

  lemma ElementsEnd(num: Numerics, items: seq<Json>, fmt: bool, indent: nat, depth: nat, rest: string, blank: string)
    requires |items| == 1 && FirstRead(num, items, fmt, indent, depth, rest, blank)
    ensures AllRead(num, items, fmt, indent, depth, rest, blank)
  {
    AfterStart(num, items, fmt, indent, rest);
    assert ("]" + rest)[1..] == rest && [items[0]] == items;
  }

  lemma ConsWhole<T>(xs: seq<T>, rest: string)
    requires xs != []
    ensures Cons(xs[0], Parsed(xs[1..], rest)) == Parsed(xs, rest)
  {
    assert [xs[0]] + xs[1..] == xs;
  }

  lemma SkipNothing(s: string)
    requires Terminated(s) && s[0] > ' '
    ensures Skip(s) == s
  {
  }

  lemma ElementsStep(num: Numerics, s: string, depth: nat, items: seq<Json>, after: string, more: string, rest: string)
    requires items != [] && Terminated(s) && ParseValue(num, Skip(s), depth) == Parsed(items[0], after)
    requires Terminated(after) && after[0] == ',' && after[1..] == more && Terminated(more)
    requires ParseElements(num, more, depth) == Parsed(items[1..], rest)
    ensures ParseElements(num, s, depth) == Parsed(items, rest)
  {
    hide ParseValue, ParseElements, Skip, Cons;
    ElementsCases(num, s, depth);
    SkipNothing(after);
    ConsWhole(items, rest);
  }

  /** What stands between the last member and the closing brace. */
  function Tail(fmt: bool, indent: nat, rest: string): string {
    Indent(fmt, indent) + ("}" + rest)
  }

  /** From behind the first value to the end: comma, newline, the other members, the brace. */
  function Trailer(num: Numerics, ms: seq<Member<Json>>, fmt: bool, indent: nat, rest: string): string
    requires ms != []
  {
    Comma(|ms|) + (Newline(fmt) + (MembersText(num, ms[1..], fmt, indent + 1) + Tail(fmt, indent, rest)))
  }

  /** From the value of the first member on. */
  function ValueOn(num: Numerics, ms: seq<Member<Json>>, fmt: bool, indent: nat, rest: string): string
    requires ms != []
  {
    Text(num, ms[0].value, fmt, indent + 1) + Trailer(num, ms, fmt, indent, rest)
  }

  /** From the first key on. */
  function KeyOn(num: Numerics, ms: seq<Member<Json>>, fmt: bool, indent: nat, rest: string): string
    requires ms != []
  {
    Quote(ms[0].key) + (Colon(fmt) + ValueOn(num, ms, fmt, indent, rest))
  }

  /** A member and what follows it, regrouped from the right. */
  lemma Regroup(ind: string, q: string, colon: string, v: string, comma: string, nl: string, on: string)
    ensures (ind + q + colon + v + comma + nl) + on == ind + (q + (colon + (v + (comma + (nl + on)))))
  {
    Assoc(ind + q + colon + v + comma, nl, on);
    Assoc(ind + q + colon + v, comma, nl + on);
    Assoc(ind + q + colon, v, comma + (nl + on));
    Assoc(ind + q, colon, v + (comma + (nl + on)));
    Assoc(ind, q, colon + (v + (comma + (nl + on))));
  }

  lemma MembersFromKey(num: Numerics, ms: seq<Member<Json>>, fmt: bool, indent: nat, rest: string)
    requires ms != []
    ensures MembersText(num, ms, fmt, indent + 1) + Tail(fmt, indent, rest) ==
      Indent(fmt, indent + 1) + KeyOn(num, ms, fmt, indent, rest)
  {
    var v, more := Text(num, ms[0].value, fmt, indent + 1), MembersText(num, ms[1..], fmt, indent + 1);
    var tail := Tail(fmt, indent, rest);
    Assoc(MemberText(num, ms[0], Comma(|ms|), fmt, indent + 1), more, tail);
    Regroup(Indent(fmt, indent + 1), Quote(ms[0].key), Colon(fmt), v, Comma(|ms|), Newline(fmt), more + tail);
  }

  lemma ChainTerminated(q: string, colon: string, v: string, comma: string, nl: string, on: string)
    requires Terminated(on)
    ensures Terminated(comma + (nl + on)) && Terminated(v + (comma + (nl + on)))
    ensures Terminated(colon + (v + (comma + (nl + on)))) && Terminated(q + (colon + (v + (comma + (nl + on)))))
  {
    TerminatedConcat(nl, on);
    TerminatedConcat(comma, nl + on);
    TerminatedConcat(v, comma + (nl + on));
    TerminatedConcat(colon, v + (comma + (nl + on)));
    TerminatedConcat(q, colon + (v + (comma + (nl + on))));
  }

  lemma TailTerminated(fmt: bool, indent: nat, rest: string)
    requires Terminated(rest)
    ensures Terminated("}" + rest) && Terminated(Tail(fmt, indent, rest))
  {
    TerminatedConcat("}", rest);
    TerminatedConcat(Indent(fmt, indent), "}" + rest);
  }

  lemma PiecesTerminated(num: Numerics, ms: seq<Member<Json>>, fmt: bool, indent: nat, rest: string)
    requires ms != [] && Terminated(rest)
    ensures Terminated(Trailer(num, ms, fmt, indent, rest))
    ensures Terminated(ValueOn(num, ms, fmt, indent, rest))
    ensures Terminated(Colon(fmt) + ValueOn(num, ms, fmt, indent, rest))
    ensures Terminated(KeyOn(num, ms, fmt, indent, rest))
  {
    var more := MembersText(num, ms[1..], fmt, indent + 1);
    TailTerminated(fmt, indent, rest);
    TerminatedConcat(more, Tail(fmt, indent, rest));
    ChainTerminated(Quote(ms[0].key), Colon(fmt), Text(num, ms[0].value, fmt, indent + 1), Comma(|ms|), Newline(fmt),
                    more + Tail(fmt, indent, rest));
  }

  lemma TrailerStart(num: Numerics, ms: seq<Member<Json>>, fmt: bool, indent: nat, rest: string)
    requires ms != [] && Terminated(rest)
    ensures var t := Trailer(num, ms, fmt, indent, rest);
      t != "" && !NumberChar(t[0])
  {
    var more := MembersText(num, ms[1..], fmt, indent + 1);
    if |ms| == 1 && !fmt {
      assert more == "" && more + Tail(fmt, indent, rest) == "}" + rest;
    }
  }

  /** Two stretches of whitespace. */
  lemma SkipTwo(a: string, b: string, r: string)
    requires Blank(a) && Blank(b) && Terminated(r) && r[0] > ' '
    ensures Terminated(a + (b + r)) && Skip(a + (b + r)) == r
  {
    SkipBlank(a + b, r);
    Assoc(a, b, r);
  }

  lemma IndentIsBlank(fmt: bool, n: nat)
    ensures Blank(Indent(fmt, n)) && Blank(Newline(fmt))
  {
  }

  /** Whitespace in front of the members, then the first key. */
  lemma SkipToKey(num: Numerics, ms: seq<Member<Json>>, fmt: bool, indent: nat, rest: string)
    requires ms != [] && Terminated(rest)
    ensures var s := Newline(fmt) + (MembersText(num, ms, fmt, indent + 1) + Tail(fmt, indent, rest));
      Terminated(s) && Skip(s) == KeyOn(num, ms, fmt, indent, rest)
  {
    MembersFromKey(num, ms, fmt, indent, rest);
    PiecesTerminated(num, ms, fmt, indent, rest);
    IndentIsBlank(fmt, indent + 1);
    SkipTwo(Newline(fmt), Indent(fmt, indent + 1), KeyOn(num, ms, fmt, indent, rest));
  }

  /** Whitespace in front of the closing brace. */
  lemma SkipToBrace(fmt: bool, indent: nat, rest: string)
    requires Terminated(rest)
    ensures var s := Newline(fmt) + ("" + Tail(fmt, indent, rest));
      Terminated(s) && Skip(s) == "}" + rest
  {
    TailTerminated(fmt, indent, rest);
    IndentIsBlank(fmt, indent);
    SkipTwo(Newline(fmt), Indent(fmt, indent), "}" + rest);
    assert "" + Tail(fmt, indent, rest) == Tail(fmt, indent, rest);
  }

  lemma {:induction false} ObjectReadsBack(num: Numerics, ms: seq<Member<Json>>, fmt: bool, indent: nat, depth: nat, rest: string)
    requires Printable(num, Object(ms)) && Height(Object(ms)) + depth <= NESTING_LIMIT && Terminated(rest)
    ensures Reads(num, Object(ms), fmt, indent, depth, rest)
    decreases ms, 3
  {
    hide Reads, MembersRead;
    if ms == [] {
      ObjectClosed(num, ms, fmt, indent, depth, rest);
    } else {
      FirstMembers(num, ms, fmt, indent, depth + 1, rest);
      ObjectClosed(num, ms, fmt, indent, depth, rest);
    }
  }

  /** The text from the first key on reads back as the members. */
  ghost predicate MembersRead(num: Numerics, ms: seq<Member<Json>>, fmt: bool, indent: nat, depth: nat, rest: string)
    requires ms != []
  {
    var s := KeyOn(num, ms, fmt, indent, rest);
    Terminated(s) && ParseMembers(num, s, depth) == Parsed(ms, rest)
  }

  lemma {:induction false} FirstMembers(num: Numerics, ms: seq<Member<Json>>, fmt: bool, indent: nat, depth: nat, rest: string)
    requires ms != [] && PrintableMembers(num, ms) && Terminated(rest)
    requires depth + HeightOfMembers(ms) <= NESTING_LIMIT
    ensures MembersRead(num, ms, fmt, indent, depth, rest)
    decreases ms, 2
  {
    PiecesTerminated(num, ms, fmt, indent, rest);
    KeyStart(num, ms, fmt, indent, rest);
    MembersReadBack(num, ms, fmt, indent, depth, rest, KeyOn(num, ms, fmt, indent, rest));
  }

  lemma KeyStart(num: Numerics, ms: seq<Member<Json>>, fmt: bool, indent: nat, rest: string)
    requires ms != [] && Terminated(KeyOn(num, ms, fmt, indent, rest))
    ensures KeyOn(num, ms, fmt, indent, rest)[0] == QUOTE
    ensures Skip(KeyOn(num, ms, fmt, indent, rest)) == KeyOn(num, ms, fmt, indent, rest)
  {
  }

  lemma ObjectClosed(num: Numerics, ms: seq<Member<Json>>, fmt: bool, indent: nat, depth: nat, rest: string)
    requires Terminated(rest) && depth < NESTING_LIMIT
    requires ms != [] ==> MembersRead(num, ms, fmt, indent, depth + 1, rest)
    ensures Reads(num, Object(ms), fmt, indent, depth, rest)
  {
    var body := Newline(fmt) + (MembersText(num, ms, fmt, indent + 1) + Tail(fmt, indent, rest));
    OpenBrace(num, ms, fmt, indent, rest);
    if ms == [] {
      SkipToBrace(fmt, indent, rest);
    } else {
      SkipToKey(num, ms, fmt, indent, rest);
      KeyStart(num, ms, fmt, indent, rest);
    }
    ObjectOpened(num, ms, depth, rest, body);
  }

  lemma OpenBrace(num: Numerics, ms: seq<Member<Json>>, fmt: bool, indent: nat, rest: string)
    ensures Text(num, Object(ms), fmt, indent) + rest ==
      "{" + (Newline(fmt) + (MembersText(num, ms, fmt, indent + 1) + Tail(fmt, indent, rest)))
  {
    hide MembersText, Newline, Indent;
    BraceRegroup(Newline(fmt), MembersText(num, ms, fmt, indent + 1), Indent(fmt, indent), rest);
  }

  lemma BraceRegroup(nl: string, m: string, ind: string, rest: string)
    ensures ("{" + nl + m + ind + "}") + rest == "{" + (nl + (m + (ind + ("}" + rest))))
  {
    Assoc("{" + nl + m + ind, "}", rest);
    Assoc("{" + nl + m, ind, "}" + rest);
    Assoc("{" + nl, m, ind + ("}" + rest));
    Assoc("{", nl, m + (ind + ("}" + rest)));
  }

  lemma BraceIsObject(num: Numerics, s: string, depth: nat)
    requires Terminated(s) && s[0] == '{'
    ensures ParseValue(num, s, depth) == ParseObject(num, s, depth)
  {
    NotLiteral(s);
  }

  /** From the result behind the opening brace to that of the object. */
  lemma ObjectOpened(num: Numerics, ms: seq<Member<Json>>, depth: nat, rest: string, body: string)
    requires Terminated(body) && depth < NESTING_LIMIT
    requires ms == [] ==> Skip(body) == "}" + rest
    requires ms != [] ==> Skip(body)[0] != '}' && ParseMembers(num, Skip(body), depth + 1) == Parsed(ms, rest)
    ensures Terminated("{" + body) && ParseValue(num, "{" + body, depth) == Parsed(Object(ms), rest)
  {
    var s := "{" + body;
    TerminatedConcat("{", body);
    BraceIsObject(num, s, depth);
    assert s[1..] == body;
    assert ("}" + rest)[1..] == rest;
  }

  lemma {:induction false} MemberReadsBack(num: Numerics, ms: seq<Member<Json>>, fmt: bool, indent: nat, depth: nat,
                                           rest: string, s: string)
    requires ms != [] && PrintableMembers(num, ms) && Terminated(rest)
    requires depth + HeightOfMembers(ms) <= NESTING_LIMIT
    requires Terminated(s) && Skip(s) == KeyOn(num, ms, fmt, indent, rest)
    ensures ParseMember(num, s, depth) == Parsed(ms[0], Trailer(num, ms, fmt, indent, rest))
    decreases ms, 0
  {
    var on, t := ValueOn(num, ms, fmt, indent, rest), Trailer(num, ms, fmt, indent, rest);
    PiecesTerminated(num, ms, fmt, indent, rest);
    TrailerStart(num, ms, fmt, indent, rest);
    StringReadsBack(ms[0].key, Colon(fmt) + on);
    TextStart(num, ms[0].value, fmt, indent + 1);
    AfterColon(fmt, on);
    ValueReadsBack(num, ms[0].value, fmt, indent + 1, depth, t);
    MemberGlue(num, ms[0], s, depth, Colon(fmt) + on, on, t);
  }

  lemma AfterColon(fmt: bool, on: string)
    requires Terminated(on) && on[0] > ' '
    ensures var c := Colon(fmt) + on;
      Terminated(c) && c[0] == ':' && Skip(c) == c && Terminated(c[1..]) && Skip(c[1..]) == on
  {
    hide Skip;
    var c, tab := Colon(fmt) + on, if fmt then "\t" else "";
    TerminatedConcat(Colon(fmt), on);
    assert c[1..] == tab + on;
    SkipNothing(c);
    SkipBlank(tab, on);
  }

  lemma MemberGlue(num: Numerics, m: Member<Json>, s: string, depth: nat, colon: string, on: string, after: string)
    requires Terminated(s) && ParseString(Skip(s)) == Parsed(m.key, colon)
    requires Terminated(colon) && colon[0] == ':' && Skip(colon) == colon && Terminated(colon[1..]) && Skip(colon[1..]) == on
    requires Terminated(on) && ParseValue(num, on, depth) == Parsed(m.value, after)
    ensures ParseMember(num, s, depth) == Parsed(m, after)
  {
  }

  lemma {:induction false} MembersReadBack(num: Numerics, ms: seq<Member<Json>>, fmt: bool, indent: nat, depth: nat,
                                           rest: string, s: string)
    requires ms != [] && PrintableMembers(num, ms) && Terminated(rest)
    requires depth + HeightOfMembers(ms) <= NESTING_LIMIT
    requires Terminated(s) && Skip(s) == KeyOn(num, ms, fmt, indent, rest)
    ensures ParseMembers(num, s, depth) == Parsed(ms, rest)
    decreases ms, 1
  {
    hide ParseMembers, ParseMember, Skip, KeyOn, Trailer;
    MemberReadsBack(num, ms, fmt, indent, depth, rest, s);
    if |ms| == 1 {
      LastMember(num, ms, fmt, indent, depth, rest, s);
    } else {
      SkipToKey(num, ms[1..], fmt, indent, rest);
      assert PrintableMembers(num, ms[1..]);
      MembersReadBack(num, ms[1..], fmt, indent, depth, rest, MembersOn(num, ms[1..], fmt, indent, rest));
      NextMember(num, ms, fmt, indent, depth, rest, s);
    }
  }

  /** From behind the comma and the closing of a value on. */
  function MembersOn(num: Numerics, ms: seq<Member<Json>>, fmt: bool, indent: nat, rest: string): string {
    Newline(fmt) + (MembersText(num, ms, fmt, indent + 1) + Tail(fmt, indent, rest))
  }

  lemma LastMember(num: Numerics, ms: seq<Member<Json>>, fmt: bool, indent: nat, depth: nat, rest: string, s: string)
    requires |ms| == 1 && Terminated(rest) && Terminated(s)
    requires ParseMember(num, s, depth) == Parsed(ms[0], Trailer(num, ms, fmt, indent, rest))
    ensures ParseMembers(num, s, depth) == Parsed(ms, rest)
  {
    LastTrailer(num, ms, fmt, indent, rest);
    SkipToBrace(fmt, indent, rest);
    PiecesTerminated(num, ms, fmt, indent, rest);
    MembersEnd(num, ms, s, depth, Trailer(num, ms, fmt, indent, rest), rest);
  }

  lemma NextMember(num: Numerics, ms: seq<Member<Json>>, fmt: bool, indent: nat, depth: nat, rest: string, s: string)
    requires |ms| > 1 && Terminated(rest) && Terminated(s)
    requires ParseMember(num, s, depth) == Parsed(ms[0], Trailer(num, ms, fmt, indent, rest))
    requires Terminated(MembersOn(num, ms[1..], fmt, indent, rest))
    requires ParseMembers(num, MembersOn(num, ms[1..], fmt, indent, rest), depth) == Parsed(ms[1..], rest)
    ensures ParseMembers(num, s, depth) == Parsed(ms, rest)
  {
    var t := Trailer(num, ms, fmt, indent, rest);
    PiecesTerminated(num, ms, fmt, indent, rest);
    CommaOn(t, MembersOn(num, ms[1..], fmt, indent, rest));
    MembersMore(num, ms, s, depth, t, MembersOn(num, ms[1..], fmt, indent, rest), rest);
  }

  lemma LastTrailer(num: Numerics, ms: seq<Member<Json>>, fmt: bool, indent: nat, rest: string)
    requires |ms| == 1
    ensures Trailer(num, ms, fmt, indent, rest) == Newline(fmt) + ("" + Tail(fmt, indent, rest))
  {
    var x := Newline(fmt) + ("" + Tail(fmt, indent, rest));
    assert MembersText(num, ms[1..], fmt, indent + 1) == "";
    assert "" + x == x;
  }

  lemma CommaOn(t: string, more: string)
    requires t == "," + more && Terminated(t)
    ensures Skip(t) == t && t[0] == ',' && t[1..] == more
  {
    assert "" + t == t;
    SkipBlank("", t);
  }

  lemma MembersEnd(num: Numerics, ms: seq<Member<Json>>, s: string, depth: nat, after: string, rest: string)
    requires |ms| == 1 && Terminated(s) && Terminated(after)
    requires ParseMember(num, s, depth) == Parsed(ms[0], after) && Skip(after) == "}" + rest
    ensures ParseMembers(num, s, depth) == Parsed(ms, rest)
  {
    assert ("}" + rest)[1..] == rest && [ms[0]] == ms;
  }

  lemma MembersMore(num: Numerics, ms: seq<Member<Json>>, s: string, depth: nat, after: string, more: string, rest: string)
    requires |ms| > 1 && Terminated(s) && Terminated(after) && Terminated(more)
    requires ParseMember(num, s, depth) == Parsed(ms[0], after)
    requires Skip(after) == after && after[0] == ',' && after[1..] == more
    requires ParseMembers(num, more, depth) == Parsed(ms[1..], rest)
    ensures ParseMembers(num, s, depth) == Parsed(ms, rest)
  {
    hide ParseMember, Skip;
    assert [ms[0]] + ms[1..] == ms;
  }

  /** A printed text starts neither with whitespace nor with a byte order mark. */
  lemma TextStartsPlain(num: Numerics, j: Json, fmt: bool, depth: nat)
    requires Printable(num, j)
    ensures Text(num, j, fmt, depth) != "" && Text(num, j, fmt, depth)[0] as int < 0x80
  {
    match j
    case Number(_, d) => NumberTextReadsBack(num, d);
    case _ =>
  }

  lemma ParseWhole(num: Numerics, text: string, j: Json)
    requires text != "" && ' ' < text[0] && text[0] as int < 0x80
    requires Terminated(text + "\0") && ParseValue(num, text + "\0", 0) == Parsed(j, "\0")
    ensures Parse(num, text, true) == Parsed(j, "\0")
  {
    var s := text + "\0";
    assert s[0] == text[0];
    assert SkipBom(s) == s && Skip(s) == s && Skip("\0") == "\0";
  }

  /**
   * Parsing undoes printing: a printable tree that nests no deeper than the limit, printed with or
   * without formatting and parsed strictly, comes back exactly, with its members in their order.
   */
  lemma ParseUndoesPrint(num: Numerics, j: Json, fmt: bool)
    requires Printable(num, j) && Height(j) <= NESTING_LIMIT
    ensures Parse(num, Text(num, j, fmt, 0), true) == Parsed(j, "\0")
  {
    TextStart(num, j, fmt, 0);
    TextStartsPlain(num, j, fmt, 0);
    ValueReadsBack(num, j, fmt, 0, 0, "\0");
    ParseWhole(num, Text(num, j, fmt, 0), j);
  }
}
