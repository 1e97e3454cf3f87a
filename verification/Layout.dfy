// What printing adds and minifying takes away: the layout of formatted text, and that minifying it
// gives the unformatted text, which has no blank outside its strings.
module Layout {
  import opened Texts
  import opened Documents
  import opened StringCodec
  import opened Grammar
  import opened RoundTripping
  import opened Minifying

  // ----- minifying, piece by piece

  /** Spaces, tabs, carriage returns and line feeds go. */
  lemma {:induction false} BlanksGo(w: string, rest: string)
    requires forall i :: 0 <= i < |w| ==> w[i] in " \t\r\n"
    ensures Minify(w + rest) == Minify(rest)
    decreases |w|
  {
    hide Minify;
    if w == "" {
      EmptyConcat(rest);
    } else {
      BlanksGo(w[1..], rest);
      var s := w + rest;
      assert s[0] == w[0] && s[1..] == w[1..] + rest;
      MinifyCases(s);
    }
  }

  /** A comment to the end of the line goes, with the end of the line or at the end of the text. */
  lemma LineCommentGoes(c: string, rest: string)
    requires '\n' !in c
    ensures Minify("//" + c + "\n" + rest) == Minify(rest) && Minify("//" + c) == ""
  {
    hide Minify, LineEnd;
    var s, t := "//" + c + "\n" + rest, "//" + c;
    LineEndIs(t, "\n" + rest);
    LineEndIs(t, "");
    assert s == t + ("\n" + rest) && t + "" == t;
    MinifyCases(s);
    MinifyCases(t);
    assert s[|t|..] == "\n" + rest && t[|t|..] == "";
    BlanksGo("\n", rest);
    MinifyNothing("", "");
    EmptyConcat(Minify(""));
  }

  lemma {:induction false} LineEndIs(t: string, rest: string)
    requires '\n' !in t && (rest != "" ==> rest[0] == '\n')
    ensures LineEnd(t + rest) == |t|
  {
    if t == "" { EmptyConcat(rest); }
    else {
      assert (t + rest)[1..] == t[1..] + rest;
      LineEndIs(t[1..], rest);
    }
  }

  /** The characters "*" and "/" next to each other. */
  predicate Closes(s: string, k: nat) { k + 1 < |s| && s[k] == '*' && s[k + 1] == '/' }

  /** A block comment goes; the star that opens it may be the star that closes it. */
  lemma BlockCommentGoes(c: string, rest: string)
    requires |c| >= 3 && c[0] == '/' && c[1] == '*' && Closes(c, |c| - 2) && forall k :: 0 <= k < |c| - 2 ==> !Closes(c, k)
    ensures Minify(c + rest) == Minify(rest)
  {
    hide Minify, BlockEnd;
    var s := c + rest;
    forall k | 0 <= k < |c| - 2 ensures !Closes(s, k) { assert !Closes(c, k); }
    BlockEndIs(s, |c| - 2);
    MinifyCases(s);
    assert s[|c|..] == rest;
  }

  lemma {:induction false} BlockEndIs(s: string, n: nat)
    requires Closes(s, n) && forall k :: 0 <= k < n ==> !Closes(s, k)
    ensures BlockEnd(s) == Some(n)
    decreases n
  {
    if n > 0 {
      assert !Closes(s, 0);
      forall k | 0 <= k < n - 1 ensures !Closes(s[1..], k) { assert !Closes(s, k + 1); }
      BlockEndIs(s[1..], n - 1);
    }
  }

  /** A string literal stays as it is. */
  lemma LiteralStays(body: string, rest: string)
    requires Scan(body + ([QUOTE] + rest)) == Some(|body|)
    ensures Minify([QUOTE] + (body + ([QUOTE] + rest))) == [QUOTE] + (body + [QUOTE]) + Minify(rest)
  {
    hide Minify, Scan;
    var s := [QUOTE] + (body + ([QUOTE] + rest));
    assert s[1..] == body + ([QUOTE] + rest);
    MinifyQuote(s, |body|);
    assert s[..|body| + 2] == [QUOTE] + (body + [QUOTE]) && s[|body| + 2..] == rest;
  }

  /** Everything else stays. */
  lemma {:induction false} TokenStays(t: string, rest: string)
    requires forall i :: 0 <= i < |t| ==> t[i] !in " \t\r\n/\""
    ensures Minify(t + rest) == t + Minify(rest)
    decreases |t|
  {
    hide Minify;
    if t == "" {
      EmptyConcat(rest);
      EmptyConcat(Minify(rest));
    } else {
      TokenStays(t[1..], rest);
      var s := t + rest;
      assert s[0] == t[0] && s[1..] == t[1..] + rest && t[0] !in " \t\r\n/\"";
      MinifyCases(s);
      assert t == [t[0]] + t[1..];
      Assoc([t[0]], t[1..], Minify(rest));
    }
  }

  // ----- blanks

  /** Outside of string literals every character is above ' '. */
  predicate Compact(s: string)
    decreases |s|
  {
    if s == "" then true
    else if s[0] == QUOTE then Scan(s[1..]).Some? && Compact(s[Scan(s[1..]).value + 2..])
    else s[0] > ' ' && Compact(s[1..])
  }

  lemma {:induction false} CompactToken(t: string, rest: string)
    requires forall i :: 0 <= i < |t| ==> t[i] > ' ' && t[i] != QUOTE
    ensures Compact(t + rest) == Compact(rest)
    decreases |t|
  {
    if t == "" {
      EmptyConcat(rest);
    } else {
      CompactToken(t[1..], rest);
      assert (t + rest)[1..] == t[1..] + rest;
    }
  }

  /** A printed string, in front of any text. */
  lemma QuotedSteps(s: string, rest: string)
    ensures Minify(Quote(s) + rest) == Quote(s) + Minify(rest)
    ensures Compact(Quote(s) + rest) == Compact(rest)
  {
    hide EscapeText, Scan, Minify;
    var e := EscapeText(s);
    EscapedIsRead(s, rest);
    Assoc(e, [QUOTE], rest);
    LiteralStays(e, rest);
    var q := [QUOTE] + (e + ([QUOTE] + rest));
    assert Quote(s) + rest == q && Quote(s) == [QUOTE] + (e + [QUOTE]);
    assert q[1..] == e + ([QUOTE] + rest) && q[|e| + 2..] == rest;
  }

  /** Dropped characters in front of a text, and a token, both ways. */
  lemma TokenSteps(t: string, rest: string)
    requires forall i :: 0 <= i < |t| ==> t[i] > ' ' && t[i] != '/' && t[i] != QUOTE
    ensures Minify(t + rest) == t + Minify(rest) && Compact(t + rest) == Compact(rest)
  {
    hide Minify;
    TokenStays(t, rest);
    CompactToken(t, rest);
  }

  // ----- minifying a printed tree

  /** The text t of a tree, in front of any other, minifies to u, and u adds no blank. */
  ghost predicate Shrinks(t: string, u: string, rest: string) {
    Minify(t + rest) == u + Minify(rest) && Compact(u + rest) == Compact(rest)
  }

  lemma ShrinksThen(t: string, u: string, t': string, u': string, rest: string)
    requires Shrinks(t', u', rest) && Shrinks(t, u, t' + rest) && Shrinks(u, u, u' + rest)
    ensures Shrinks(t + t', u + u', rest)
  {
    hide Minify, Compact;
    Assoc(t, t', rest);
    Assoc(u, u', Minify(rest));
    Assoc(u, u', rest);
  }

  lemma TokenShrinks(t: string, rest: string)
    requires forall i :: 0 <= i < |t| ==> t[i] > ' ' && t[i] != '/' && t[i] != QUOTE
    ensures Shrinks(t, t, rest)
  {
    TokenSteps(t, rest);
  }

  lemma BlanksShrink(w: string, rest: string)
    requires forall i :: 0 <= i < |w| ==> w[i] in " \t\r\n"
    ensures Shrinks(w, "", rest)
  {
    hide Minify, Compact;
    BlanksGo(w, rest);
    EmptyConcat(rest);
    EmptyConcat(Minify(rest));
  }

  /** A token with blanks behind it. */
  lemma SpacedShrinks(t: string, w: string, rest: string)
    requires forall i :: 0 <= i < |t| ==> t[i] > ' ' && t[i] != '/' && t[i] != QUOTE
    requires forall i :: 0 <= i < |w| ==> w[i] in " \t\r\n"
    ensures Shrinks(t + w, t, rest)
  {
    hide Shrinks;
    BlanksShrink(w, rest);
    TokenShrinks(t, w + rest);
    TokenShrinks(t, "" + rest);
    ShrinksThen(t, t, w, "", rest);
    assert t + "" == t;
  }

  lemma NumberTextIsToken(num: Numerics, d: real)
    requires Exact(num, d)
    ensures var t := NumberText(num, d); forall i :: 0 <= i < |t| ==> t[i] > ' ' && t[i] != '/' && t[i] != QUOTE
  {
    NumberTextReadsBack(num, d);
  }

  /** Minifying a printed value gives the unformatted text of it, which has no blank outside of strings. */
  lemma {:induction false} TextShrinks(num: Numerics, j: Json, fmt: bool, depth: nat, rest: string)
    requires Printable(num, j)
    ensures Shrinks(Text(num, j, fmt, depth), Text(num, j, false, depth), rest)
    decreases j, 2
  {
    hide Shrinks, NumberText, Exact, Quote, ItemsText, MembersText;
    match j
    case Null => TokenShrinks("null", rest);
    case True => TokenShrinks("true", rest);
    case False => TokenShrinks("false", rest);
    case Number(_, d) =>
      NumberTextIsToken(num, d);
      TokenShrinks(NumberText(num, d), rest);
    case String(s) => StringShrinks(s, rest);
    case Array(items) => ArrayShrinks(num, items, fmt, depth, rest);
    case Object(ms) => ObjectShrinks(num, ms, fmt, depth, rest);
  }

  lemma StringShrinks(s: string, rest: string)
    ensures Shrinks(Quote(s), Quote(s), rest)
  {
    QuotedSteps(s, rest);
  }

  lemma {:induction false} ArrayShrinks(num: Numerics, items: seq<Json>, fmt: bool, depth: nat, rest: string)
    requires Printable(num, Array(items))
    ensures Shrinks(Text(num, Array(items), fmt, depth), Text(num, Array(items), false, depth), rest)
    decreases items, 2
  {
    hide Shrinks, ItemsText;
    var t, u := ItemsText(num, items, fmt, depth + 1), ItemsText(num, items, false, depth + 1);
    TokenShrinks("]", rest);
    ItemsShrink(num, items, fmt, depth + 1, "]" + rest);
    ItemsShrink(num, items, false, depth + 1, "]" + rest);
    ShrinksThen(t, u, "]", "]", rest);
    TokenShrinks("[", t + "]" + rest);
    TokenShrinks("[", u + "]" + rest);
    ShrinksThen("[", "[", t + "]", u + "]", rest);
    Assoc("[", t, "]");
    Assoc("[", u, "]");
  }

  lemma {:induction false} ItemsShrink(num: Numerics, items: seq<Json>, fmt: bool, depth: nat, rest: string)
    requires forall i :: 0 <= i < |items| ==> Printable(num, items[i])
    ensures Shrinks(ItemsText(num, items, fmt, depth), ItemsText(num, items, false, depth), rest)
    decreases items, 1
  {
    hide Shrinks, Text, Printable;
    if items == [] {
      TokenShrinks("", rest);
    } else {
      var x, y := Text(num, items[0], fmt, depth), Text(num, items[0], false, depth);
      var c, d := Separator(|items|, fmt), Separator(|items|, false);
      var t, u := ItemsText(num, items[1..], fmt, depth), ItemsText(num, items[1..], false, depth);
      ItemsShrink(num, items[1..], fmt, depth, rest);
      SeparatorShrinks(|items|, fmt, t + rest);
      SeparatorShrinks(|items|, false, u + rest);
      ShrinksThen(c, d, t, u, rest);
      TextShrinks(num, items[0], fmt, depth, c + t + rest);
      TextShrinks(num, items[0], false, depth, d + u + rest);
      ShrinksThen(x, y, c + t, d + u, rest);
      Assoc(x, c, t);
      Assoc(y, d, u);
    }
  }

  lemma SeparatorShrinks(n: nat, fmt: bool, rest: string)
    ensures Shrinks(Separator(n, fmt), Separator(n, false), rest)
  {
    hide Shrinks;
    SpacedShrinks(",", " ", rest);
    assert "," + " " == ", ";
    TokenShrinks(",", rest);
    TokenShrinks("", rest);
  }

  lemma {:induction false} ObjectShrinks(num: Numerics, ms: seq<Member<Json>>, fmt: bool, depth: nat, rest: string)
    requires Printable(num, Object(ms))
    ensures Shrinks(Text(num, Object(ms), fmt, depth), Text(num, Object(ms), false, depth), rest)
    decreases ms, 2
  {
    hide Shrinks, MembersText, PrintableMembers;
    var o, t, b := "{" + Newline(fmt), MembersText(num, ms, fmt, depth + 1), Indent(fmt, depth) + "}";
    var u := MembersText(num, ms, false, depth + 1);
    BlanksThenToken(Indent(fmt, depth), "}", rest);
    MembersShrink(num, ms, fmt, depth + 1, b + rest);
    MembersShrink(num, ms, false, depth + 1, "}" + rest);
    ShrinksThen(t, u, b, "}", rest);
    SpacedShrinks("{", Newline(fmt), t + b + rest);
    TokenShrinks("{", u + "}" + rest);
    ShrinksThen(o, "{", t + b, u + "}", rest);
    ObjectTextIs(num, ms, fmt, depth);
    ObjectTextIs(num, ms, false, depth);
  }

  lemma ObjectTextIs(num: Numerics, ms: seq<Member<Json>>, fmt: bool, depth: nat)
    ensures Text(num, Object(ms), fmt, depth) ==
      ("{" + Newline(fmt)) + (MembersText(num, ms, fmt, depth + 1) + (Indent(fmt, depth) + "}"))
    ensures !fmt ==> Text(num, Object(ms), fmt, depth) == "{" + (MembersText(num, ms, fmt, depth + 1) + "}")
  {
    hide MembersText;
  }

  lemma BlanksThenToken(w: string, t: string, rest: string)
    requires forall i :: 0 <= i < |t| ==> t[i] > ' ' && t[i] != '/' && t[i] != QUOTE
    requires forall i :: 0 <= i < |w| ==> w[i] in " \t\r\n"
    ensures Shrinks(w + t, t, rest)
  {
    hide Shrinks;
    TokenShrinks(t, rest);
    BlanksShrink(w, t + rest);
    TokenShrinks("", t + rest);
    ShrinksThen(w, "", t, t, rest);
    EmptyConcat(t);
  }

  lemma {:induction false} MembersShrink(num: Numerics, ms: seq<Member<Json>>, fmt: bool, depth: nat, rest: string)
    requires PrintableMembers(num, ms)
    ensures Shrinks(MembersText(num, ms, fmt, depth), MembersText(num, ms, false, depth), rest)
    decreases ms, 1
  {
    hide Shrinks, Text, Printable, MemberText;
    if ms == [] {
      TokenShrinks("", rest);
    } else {
      var c := Comma(|ms|);
      var t, u := MembersText(num, ms[1..], fmt, depth), MembersText(num, ms[1..], false, depth);
      MembersShrink(num, ms[1..], fmt, depth, rest);
      MemberShrinks(num, ms[0], c, fmt, depth, t + rest);
      MemberShrinks(num, ms[0], c, false, depth, u + rest);
      ShrinksThen(MemberText(num, ms[0], c, fmt, depth), MemberText(num, ms[0], c, false, depth), t, u, rest);
    }
  }

  lemma {:induction false} MemberShrinks(num: Numerics, m: Member<Json>, comma: string, fmt: bool, depth: nat, rest: string)
    requires Printable(num, m.value) && (comma == "" || comma == ",")
    ensures Shrinks(MemberText(num, m, comma, fmt, depth), MemberText(num, m, comma, false, depth), rest)
    decreases m, 1
  {
    hide Shrinks, Text, Printable, Quote;
    var x, y := Text(num, m.value, fmt, depth), Text(num, m.value, false, depth);
    var n, q := Newline(fmt), Quote(m.key);
    // comma and newline
    SpacedShrinks(comma, n, rest);
    // the value
    TextShrinks(num, m.value, fmt, depth, comma + n + rest);
    TextShrinks(num, m.value, false, depth, comma + rest);
    ShrinksThen(x, y, comma + n, comma, rest);
    // the colon
    ColonShrinks(fmt, x + (comma + n) + rest);
    ColonShrinks(false, y + comma + rest);
    ShrinksThen(Colon(fmt), ":", x + (comma + n), y + comma, rest);
    // the key
    StringShrinks(m.key, Colon(fmt) + (x + (comma + n)) + rest);
    StringShrinks(m.key, ":" + (y + comma) + rest);
    ShrinksThen(q, q, Colon(fmt) + (x + (comma + n)), ":" + (y + comma), rest);
    // the indentation
    var t, u := q + (Colon(fmt) + (x + (comma + n))), q + (":" + (y + comma));
    BlanksShrink(Indent(fmt, depth), t + rest);
    TokenShrinks("", u + rest);
    ShrinksThen(Indent(fmt, depth), "", t, u, rest);
    EmptyConcat(u);
    MemberTextIs(num, m, comma, fmt, depth);
    MemberTextIs(num, m, comma, false, depth);
  }

  lemma MemberTextIs(num: Numerics, m: Member<Json>, comma: string, fmt: bool, depth: nat)
    ensures MemberText(num, m, comma, fmt, depth) ==
      Indent(fmt, depth) + (Quote(m.key) + (Colon(fmt) + (Text(num, m.value, fmt, depth) + (comma + Newline(fmt)))))
    ensures !fmt ==> MemberText(num, m, comma, fmt, depth) == Quote(m.key) + (":" + (Text(num, m.value, fmt, depth) + comma))
  {
    hide Text, Quote, Tabs;
    var q, c, x := Quote(m.key), Colon(fmt), Text(num, m.value, fmt, depth);
    SixTexts(Indent(fmt, depth), q, c, x, comma, Newline(fmt));
    if !fmt {
      EmptyConcat(q + (":" + (x + (comma + ""))));
      assert comma + "" == comma;
    }
  }

  lemma SixTexts(a: string, b: string, c: string, d: string, e: string, f: string)
    ensures a + b + c + d + e + f == a + (b + (c + (d + (e + f))))
  {
    Assoc(a, b, c);
    Assoc(a, b + c, d);
    Assoc(b, c, d);
    Assoc(a, b + (c + d), e);
    Assoc(b, c + d, e);
    Assoc(c, d, e);
    Assoc(a, b + (c + (d + e)), f);
    Assoc(b, c + (d + e), f);
    Assoc(c, d + e, f);
    Assoc(d, e, f);
  }

  lemma ColonShrinks(fmt: bool, rest: string)
    ensures Shrinks(Colon(fmt), ":", rest)
  {
    hide Shrinks;
    SpacedShrinks(":", "\t", rest);
    assert ":" + "\t" == ":\t";
    TokenShrinks(":", rest);
  }

  /**
   * The unformatted text has no character up to ' ' outside of its strings, and it is what minifying
   * leaves of the formatted text.
   */
  lemma MinifyUndoesFormat(num: Numerics, j: Json, depth: nat)
    requires Printable(num, j)
    ensures Minify(Text(num, j, true, depth)) == Text(num, j, false, depth)
    ensures Compact(Text(num, j, false, depth))
  {
    hide Text;
    var t, u := Text(num, j, true, depth), Text(num, j, false, depth);
    TextShrinks(num, j, true, depth, "");
    MinifyNothing("", u);
    assert t + "" == t && u + "" == u;
  }

  // ----- the layout

  /** Texts with a separator between them. */
  function Join(parts: seq<string>, separator: string): string {
    if parts == [] then "" else if |parts| == 1 then parts[0] else parts[0] + (separator + Join(parts[1..], separator))
  }

  function TextsOf(num: Numerics, items: seq<Json>, fmt: bool, depth: nat): seq<string> {
    seq(|items|, i requires 0 <= i < |items| => Text(num, items[i], fmt, depth))
  }

  lemma JoinStep(parts: seq<string>, separator: string)
    requires |parts| > 1
    ensures Join(parts, separator) == parts[0] + (separator + Join(parts[1..], separator))
  {
  }

  /** An array is printed on the lines of its elements, with a comma, or a comma and a space, between them. */
  lemma ArrayLayout(num: Numerics, items: seq<Json>, depth: nat)
    ensures Text(num, Array(items), true, depth) == "[" + Join(TextsOf(num, items, true, depth + 1), ", ") + "]"
    ensures Text(num, Array(items), false, depth) == "[" + Join(TextsOf(num, items, false, depth + 1), ",") + "]"
  {
    ItemsLayout(num, items, true, depth + 1);
    ItemsLayout(num, items, false, depth + 1);
  }

  lemma {:induction false} ItemsLayout(num: Numerics, items: seq<Json>, fmt: bool, depth: nat)
    ensures ItemsText(num, items, fmt, depth) == Join(TextsOf(num, items, fmt, depth), if fmt then ", " else ",")
  {
    hide Text, Join;
    var parts := TextsOf(num, items, fmt, depth);
    if |items| > 1 {
      ItemsLayout(num, items[1..], fmt, depth);
      assert parts[1..] == TextsOf(num, items[1..], fmt, depth);
      JoinStep(parts, if fmt then ", " else ",");
    } else {
      JoinFew(parts, if fmt then ", " else ",");
      if |items| == 1 { assert items[1..] == [] && parts[0] + "" + "" == parts[0]; }
    }
  }

  lemma JoinFew(parts: seq<string>, separator: string)
    requires |parts| <= 1
    ensures Join(parts, separator) == if parts == [] then "" else parts[0]
  {
  }

  /** One line of a formatted object: a tab for each level, the key, a colon and a tab, and the value. */
  function Line(num: Numerics, m: Member<Json>, depth: nat): string {
    Tabs(depth) + Quote(m.key) + ":\t" + Text(num, m.value, true, depth)
  }

  function Lines(num: Numerics, ms: seq<Member<Json>>, depth: nat): seq<string> {
    seq(|ms|, i requires 0 <= i < |ms| => Line(num, ms[i], depth))
  }

  function Pairs(num: Numerics, ms: seq<Member<Json>>, depth: nat): seq<string> {
    seq(|ms|, i requires 0 <= i < |ms| => Quote(ms[i].key) + ":" + Text(num, ms[i].value, false, depth))
  }

  /**
   * A formatted object has a line for each member, one tab deeper than its own closing brace;
   * an unformatted one has nothing but its pairs and commas.
   */
  lemma ObjectLayout(num: Numerics, ms: seq<Member<Json>>, depth: nat)
    ensures Text(num, Object(ms), true, depth) ==
      "{\n" + (if ms == [] then "" else Join(Lines(num, ms, depth + 1), ",\n") + "\n") + Tabs(depth) + "}"
    ensures Text(num, Object(ms), false, depth) == "{" + Join(Pairs(num, ms, depth + 1), ",") + "}"
  {
    hide Join, Lines, Pairs, Text, MembersText, Tabs;
    LinesLayout(num, ms, depth + 1);
    PairsLayout(num, ms, depth + 1);
    ObjectTextIs(num, ms, true, depth);
    ObjectTextIs(num, ms, false, depth);
    assert "{" + "\n" == "{\n";
    Regroup("{\n", MembersText(num, ms, true, depth + 1), Tabs(depth), "}");
    Assoc("{", MembersText(num, ms, false, depth + 1), "}");
  }

  lemma Regroup(a: string, b: string, c: string, d: string)
    ensures a + (b + (c + d)) == a + b + c + d
  {
  }

  lemma {:induction false} LinesLayout(num: Numerics, ms: seq<Member<Json>>, depth: nat)
    ensures MembersText(num, ms, true, depth) == if ms == [] then "" else Join(Lines(num, ms, depth), ",\n") + "\n"
  {
    hide Text, Join, Quote, Tabs, MemberText;
    var parts := Lines(num, ms, depth);
    if ms != [] {
      LinesLayout(num, ms[1..], depth);
      LineIs(num, ms[0], Comma(|ms|), depth);
      if |ms| > 1 {
        var more := Join(Lines(num, ms[1..], depth), ",\n");
        assert parts[1..] == Lines(num, ms[1..], depth);
        JoinStep(parts, ",\n");
        LineThen(parts[0], more);
      } else {
        JoinFew(parts, ",\n");
        assert ms[1..] == [] && MemberText(num, ms[0], "", true, depth) + "" == MemberText(num, ms[0], "", true, depth);
      }
    }
  }

  lemma LineThen(line: string, more: string)
    ensures line + ",\n" + (more + "\n") == line + (",\n" + more) + "\n"
  {
  }

  lemma LineIs(num: Numerics, m: Member<Json>, comma: string, depth: nat)
    requires comma == "" || comma == ","
    ensures MemberText(num, m, comma, true, depth) == Line(num, m, depth) + if comma == "" then "\n" else ",\n"
  {
    hide Text, Quote, Tabs;
    var x := Line(num, m, depth);
    assert x + comma + "\n" == x + (comma + "\n");
    assert "" + "\n" == "\n" && "," + "\n" == ",\n";
  }

  lemma {:induction false} PairsLayout(num: Numerics, ms: seq<Member<Json>>, depth: nat)
    ensures MembersText(num, ms, false, depth) == Join(Pairs(num, ms, depth), ",")
  {
    hide Text, Join, Quote, MemberText;
    var parts := Pairs(num, ms, depth);
    if ms == [] {
      JoinFew(parts, ",");
    } else {
      PairsLayout(num, ms[1..], depth);
      PairIs(num, ms[0], Comma(|ms|), depth);
      if |ms| > 1 {
        var more := Join(Pairs(num, ms[1..], depth), ",");
        assert parts[1..] == Pairs(num, ms[1..], depth);
        JoinStep(parts, ",");
        Assoc(parts[0], ",", more);
      } else {
        JoinFew(parts, ",");
        assert ms[1..] == [] && parts[0] + "" + "" == parts[0];
      }
    }
  }

  lemma PairIs(num: Numerics, m: Member<Json>, comma: string, depth: nat)
    ensures MemberText(num, m, comma, false, depth) == Quote(m.key) + ":" + Text(num, m.value, false, depth) + comma
  {
    hide Text, Quote;
    var q, x := Quote(m.key), Text(num, m.value, false, depth);
    assert "" + q + ":" + x + comma + "" == q + ":" + x + comma;
  }

  /** Each member of a formatted object stands on lines of its own, behind as many tabs as it is deep. */
  lemma MemberOnItsLine(num: Numerics, ms: seq<Member<Json>>, depth: nat, i: nat) returns (before: string, after: string)
    requires i < |ms|
    ensures Text(num, Object(ms), true, depth) ==
      before + ("\n" + (Tabs(depth + 1) + Quote(ms[i].key) + ":\t" + Text(num, ms[i].value, true, depth + 1)) + after)
    ensures if i + 1 < |ms| then ",\n" <= after else "\n" <= after
  {
    hide Text, Quote, Tabs, Join;
    var parts := Lines(num, ms, depth + 1);
    ObjectLayout(num, ms, depth);
    var b, a := JoinAround(parts, ",\n", i);
    before, after := "{" + b, a + ("\n" + (Tabs(depth) + "}"));
    Around("{\n", Join(parts, ",\n"), "\n", Tabs(depth), b, parts[i], a);
    if i + 1 < |ms| { assert ",\n" <= a + ("\n" + (Tabs(depth) + "}")); } else { assert a == ""; }
  }

  lemma Around(open: string, body: string, n: string, tabs: string, b: string, part: string, a: string)
    requires open == "{\n" && n == "\n" && "\n" + body == b + ("\n" + part) + a
    ensures open + (body + n) + tabs + "}" == "{" + b + ("\n" + part + (a + ("\n" + (tabs + "}"))))
  {
    assert open == "{" + "\n";
    assert open + (body + n) == "{" + ("\n" + body) + "\n";
  }

  /** One of the joined texts, with a line break in front of each. */
  lemma {:induction false} JoinAround(parts: seq<string>, separator: string, i: nat) returns (b: string, a: string)
    requires i < |parts| && separator == ",\n"
    ensures "\n" + Join(parts, separator) == b + ("\n" + parts[i]) + a
    ensures if i + 1 < |parts| then separator <= a else a == ""
  {
    hide Join;
    if |parts| == 1 {
      JoinFew(parts, separator);
      b, a := "", "";
      assert "" + ("\n" + parts[0]) + "" == "\n" + parts[0];
    } else {
      JoinStep(parts, separator);
      var more := Join(parts[1..], separator);
      if i == 0 {
        b, a := "", separator + more;
        assert "\n" + (parts[0] + (separator + more)) == "" + ("\n" + parts[0]) + (separator + more);
      } else {
        b, a := JoinAround(parts[1..], separator, i - 1);
        Shifted(parts[0], more, b, parts[i], a);
        b := "\n" + parts[0] + "," + b;
      }
    }
  }

  lemma Shifted(first: string, more: string, b: string, part: string, a: string)
    requires "\n" + more == b + ("\n" + part) + a
    ensures "\n" + (first + (",\n" + more)) == "\n" + first + "," + b + ("\n" + part) + a
  {
    assert ",\n" + more == "," + ("\n" + more);
    assert "\n" + (first + ("," + ("\n" + more))) == "\n" + first + "," + ("\n" + more);
    assert "\n" + first + "," + (b + ("\n" + part) + a) == "\n" + first + "," + b + ("\n" + part) + a;
  }

  // ----- numbers and characters

  /** A number has 15 digits if they read back as the same double, and 17 if they do not. */
  lemma NumberLayout(num: Numerics, i: int, d: real, fmt: bool, depth: nat)
    ensures var short, t := num.format15(d), Text(num, Number(i, d), fmt, depth);
      if 0 < num.scan(short).length && num.scan(short).value == d then t == short else t == num.format17(d)
  {
  }
}
