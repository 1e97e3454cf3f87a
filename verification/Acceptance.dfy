// The texts that the parser accepts, as concrete syntax: a grammar laxer than that of JSON, and the
// proof that the parser accepts exactly its texts that are nested within the limit.
module Acceptance {
  import opened Texts
  import opened Documents
  import opened Comparing
  import opened StringCodec
  import opened Grammar
  import opened RoundTripping

  datatype Form =
    | Word(meaning: Json)
    | Token(text: string)
    | Quoted(body: string)
    | List(blank: string, parts: seq<Part>)
    | Record(blank: string, entries: seq<Entry>)

  /** A value with the control characters and spaces around it. */
  datatype Part = Part(before: string, form: Form, after: string)

  /** A name and its value, with what is skipped around the name, and around the value. */
  datatype Entry = Entry(before: string, name: string, behind: string, part: Part)

  /** What may stand between two quotes: the first pass ends behind it, and the second can decode it. */
  predicate Enclosed(body: string) {
    Scan(body + [QUOTE]) == Some(|body|) && Decode(body + [QUOTE], |body|).Decoded?
  }

  function Content(body: string): string
    requires Enclosed(body)
  {
    UpToNul(Decode(body + [QUOTE], |body|).out)
  }

  predicate AllNumber(t: string) { forall i :: 0 <= i < |t| ==> NumberChar(t[i]) }

  lemma NumberCharsExactly(c: char)
    ensures NumberChar(c) <==> c in "0123456789+-.eE"
  {
  }

  /** Number characters that the parser's buffer holds and strtod takes as a whole. */
  predicate NumberToken(num: Numerics, t: string) {
    1 <= |t| <= 63 && (t[0] == '-' || IsDigit(t[0])) && AllNumber(t) && num.scan(t).length == |t|
  }

  predicate Lax(num: Numerics, v: Form) {
    match v
    case Word(j) => j.Null? || j.True? || j.False?
    case Token(t) => NumberToken(num, t)
    case Quoted(body) => Enclosed(body)
    case List(blank, ps) => Blank(blank) && LaxList(num, ps)
    case Record(blank, es) => Blank(blank) && LaxRecord(num, es)
  }

  predicate LaxList(num: Numerics, ps: seq<Part>) {
    forall i :: 0 <= i < |ps| ==> Blank(ps[i].before) && Lax(num, ps[i].form) && Blank(ps[i].after)
  }

  predicate LaxRecord(num: Numerics, es: seq<Entry>) {
    forall i :: 0 <= i < |es| ==>
      var p := es[i].part;
      && Blank(es[i].before) && Enclosed(es[i].name) && Blank(es[i].behind)
      && Blank(p.before) && Lax(num, p.form) && Blank(p.after)
  }

  /** The text of a value, with what follows it. */
  function FormText(v: Form, rest: string): string
    decreases v, 1
  {
    match v
    case Word(j) => (if j.Null? then "null" else if j.True? then "true" else "false") + rest
    case Token(t) => t + rest
    case Quoted(body) => NameText(body, rest)
    case List(blank, ps) => "[" + if ps == [] then blank + ("]" + rest) else ListText(ps, rest)
    case Record(blank, es) => "{" + if es == [] then blank + ("}" + rest) else RecordText(es, rest)
  }

  function NameText(body: string, rest: string): string { [QUOTE] + (body + ([QUOTE] + rest)) }

  /** What follows an element: the other elements, or the closing bracket. */
  function ListEnd(ps: seq<Part>, rest: string): string
    decreases ps, 1
  {
    if ps == [] then "]" + rest else "," + ListText(ps, rest)
  }

  function ListText(ps: seq<Part>, rest: string): string
    requires ps != []
    decreases ps, 0
  {
    ps[0].before + FormText(ps[0].form, ps[0].after + ListEnd(ps[1..], rest))
  }

  function RecordEnd(es: seq<Entry>, rest: string): string
    decreases es, 1
  {
    if es == [] then "}" + rest else "," + RecordText(es, rest)
  }

  function RecordText(es: seq<Entry>, rest: string): string
    requires es != []
    decreases es, 0
  {
    var p := es[0].part;
    es[0].before
    + NameText(es[0].name, es[0].behind + (":" + (p.before + FormText(p.form, p.after + RecordEnd(es[1..], rest)))))
  }

  /** The tree that a value denotes. */
  function Denotes(num: Numerics, v: Form): Json
    requires Lax(num, v)
    decreases v, 0
  {
    match v
    case Word(j) => j
    case Token(t) => var d := num.scan(t).value; Number(ToInt(d), d)
    case Quoted(body) => String(Content(body))
    case List(_, ps) => Array(DenotesList(num, ps))
    case Record(_, es) => Object(DenotesRecord(num, es))
  }

  function DenotesList(num: Numerics, ps: seq<Part>): seq<Json>
    requires LaxList(num, ps)
    decreases ps, 1
  {
    if ps == [] then [] else [Denotes(num, ps[0].form)] + DenotesList(num, ps[1..])
  }

  function DenotesRecord(num: Numerics, es: seq<Entry>): seq<Member<Json>>
    requires LaxRecord(num, es)
    decreases es, 1
  {
    if es == [] then []
    else [Member(Content(es[0].name), Denotes(num, es[0].part.form))] + DenotesRecord(num, es[1..])
  }

  // ----- strings and numbers are read

  lemma NameIsRead(body: string, rest: string)
    requires Enclosed(body) && Terminated(rest)
    ensures Terminated(NameText(body, rest))
    ensures ParseString(NameText(body, rest)) == Parsed(Content(body), rest)
  {
    hide Scan, Decode, UpToNul;
    var s, t, n := NameText(body, rest), body + ([QUOTE] + rest), |body|;
    assert (body + [QUOTE])[..n + 1] == t[..n + 1];
    ScanLocal(body + [QUOTE], t);
    DecodeLocal(body + [QUOTE], t, n);
    assert s[0] == QUOTE && s[1..] == t;
    assert t[n + 1..] == rest;
  }

  lemma TokenIsRead(num: Numerics, t: string, rest: string, depth: nat)
    requires NumberToken(num, t) && Terminated(rest) && !NumberChar(rest[0])
    ensures var s, d := t + rest, num.scan(t).value;
      Terminated(s) && ParseValue(num, s, depth) == Parsed(Number(ToInt(d), d), rest)
  {
    hide NumberChar;
    var s := t + rest;
    PrefixStops(t, rest, 63);
    NotLiteral(s);
    assert s[|t|..] == rest;
  }

  lemma NumberAbove(c: char)
    requires NumberChar(c)
    ensures c > ' ' && c != 'n' && c != 't' && c != 'f' && c as int < 0x80
  {
  }

  lemma NulIsNoNumber()
    ensures !NumberChar('\0') && Terminated("\0")
  {
  }

  // ----- values are read

  lemma FormStarts(num: Numerics, v: Form, rest: string)
    requires Lax(num, v)
    ensures var t := FormText(v, rest); t != "" && t[0] > ' ' && t[0] as int < 0x80 && t[0] != ']' && t[0] != '}'
  {
    hide NumberChar;
    if v.Token? { NumberAbove(v.text[0]); }
  }

  lemma WordIsRead(num: Numerics, v: Form, rest: string, depth: nat)
    requires v.Word? && Lax(num, v) && Terminated(rest)
    ensures var s := FormText(v, rest); Terminated(s) && ParseValue(num, s, depth) == Parsed(Denotes(num, v), rest)
  {
    var s := FormText(v, rest);
    if v.meaning.False? {
      assert s[..5] == "false" && s[5..] == rest && s[..4][0] == 'f';
    } else {
      var w := if v.meaning.Null? then "null" else "true";
      assert s[..4] == w && s[4..] == rest && (|s| >= 5 ==> s[..5][0] == w[0]);
    }
  }

  lemma StringIsRead(num: Numerics, body: string, rest: string, depth: nat)
    requires Enclosed(body) && Terminated(rest)
    ensures var s := NameText(body, rest);
      Terminated(s) && ParseValue(num, s, depth) == Parsed(String(Content(body)), rest)
  {
    hide ParseString, Content, Enclosed;
    NameIsRead(body, rest);
    NotLiteral(NameText(body, rest));
  }

  /** What stands behind an element: whitespace, and a comma or the closing bracket. */
  lemma BehindElement(after: string, end: string)
    requires Blank(after) && Terminated(end) && (end[0] == ',' || end[0] == ']' || end[0] == '}')
    ensures var tail := after + end; Terminated(tail) && Skip(tail) == end && !NumberChar(tail[0])
  {
    hide Skip;
    SkipBlank(after, end);
    if after != "" { assert (after + end)[0] == after[0]; } else { EmptyConcat(end); }
  }

  /** The parser accepts a value of the grammar, takes nothing behind it, and gives what it denotes. */
  lemma {:induction false} FormAccepted(num: Numerics, v: Form, rest: string, depth: nat)
    requires Lax(num, v) && Nests(Denotes(num, v), depth)
    requires Terminated(rest) && !NumberChar(rest[0])
    ensures var s := FormText(v, rest); Terminated(s) && ParseValue(num, s, depth) == Parsed(Denotes(num, v), rest)
    decreases v, 2
  {
    hide ParseValue, NumberToken, NumberChar, Enclosed, NameText, Content;
    match v
    case Word(_) => WordIsRead(num, v, rest, depth);
    case Token(t) => TokenIsRead(num, t, rest, depth);
    case Quoted(body) => StringIsRead(num, body, rest, depth);
    case List(blank, ps) => ListAccepted(num, blank, ps, rest, depth);
    case Record(blank, es) => RecordAccepted(num, blank, es, rest, depth);
  }

  lemma BracketText(blank: string, ps: seq<Part>, rest: string)
    ensures FormText(List(blank, ps), rest) == "[" + if ps == [] then blank + ("]" + rest) else ListText(ps, rest)
    ensures ("]" + rest)[0] > ' '
  {
    hide ListText;
  }

  lemma BraceText(blank: string, es: seq<Entry>, rest: string)
    ensures FormText(Record(blank, es), rest) == "{" + if es == [] then blank + ("}" + rest) else RecordText(es, rest)
    ensures ("}" + rest)[0] > ' '
  {
    hide RecordText;
  }

  lemma EmptyListAccepted(num: Numerics, blank: string, rest: string, depth: nat)
    requires Blank(blank) && depth < NESTING_LIMIT && Terminated(rest)
    ensures var s := FormText(List(blank, []), rest); Terminated(s) && ParseValue(num, s, depth) == Parsed(Array([]), rest)
  {
    hide ParseValue, ParseElements, Skip, FormText, Blank;
    BracketText(blank, [], rest);
    TerminatedConcat("]", rest);
    SkipBlank(blank, "]" + rest);
    ArrayOpened(num, [], depth, rest, blank + ("]" + rest));
  }

  lemma {:induction false} ListAccepted(num: Numerics, blank: string, ps: seq<Part>, rest: string, depth: nat)
    requires Blank(blank) && LaxList(num, ps)
    requires depth + 1 + HeightOfItems(DenotesList(num, ps)) <= NESTING_LIMIT && Terminated(rest)
    ensures var s := FormText(List(blank, ps), rest);
      Terminated(s) && ParseValue(num, s, depth) == Parsed(Array(DenotesList(num, ps)), rest)
    decreases ps, 2
  {
    hide ParseValue, ParseElements, Skip, DenotesList, ListText, FormText, LaxList,
      Blank;
    DenotesListStep(num, ps);
    if ps == [] {
      EmptyListAccepted(num, blank, rest, depth);
    } else {
      BracketText(blank, ps, rest);
      PartsAccepted(num, ps, rest, depth + 1);
      SkippedFirst(num, ListText(ps, rest), depth + 1);
      ArrayOpened(num, DenotesList(num, ps), depth, rest, ListText(ps, rest));
    }
  }

  lemma SkippedFirst(num: Numerics, s: string, depth: nat)
    requires Terminated(s)
    ensures ParseElements(num, Skip(s), depth) == ParseElements(num, s, depth)
    ensures ParseMembers(num, Skip(s), depth) == ParseMembers(num, s, depth)
  {
    hide ParseValue, ParseString;
    SkipTwice(s);
  }

  lemma DenotesListStep(num: Numerics, ps: seq<Part>)
    requires LaxList(num, ps)
    ensures ps == [] ==> DenotesList(num, ps) == []
    ensures ps != [] ==>
      && Lax(num, ps[0].form) && LaxList(num, ps[1..])
      && DenotesList(num, ps) == [Denotes(num, ps[0].form)] + DenotesList(num, ps[1..])
      && DenotesList(num, ps)[0] == Denotes(num, ps[0].form) && DenotesList(num, ps)[1..] == DenotesList(num, ps[1..])
  {
    hide Denotes;
  }

  lemma ListEndStarts(ps: seq<Part>, rest: string)
    requires Terminated(rest) && (ps != [] ==> Terminated(ListText(ps, rest)))
    ensures var end := ListEnd(ps, rest);
      && Terminated(end)
      && (if ps == [] then end[0] == ']' && end[1..] == rest else end[0] == ',' && end[1..] == ListText(ps, rest))
  {
    hide ListText;
    var more := if ps == [] then rest else ListText(ps, rest);
    TerminatedConcat(if ps == [] then "]" else ",", more);
  }

  lemma {:induction false} PartsAccepted(num: Numerics, ps: seq<Part>, rest: string, depth: nat)
    requires ps != [] && LaxList(num, ps)
    requires depth + HeightOfItems(DenotesList(num, ps)) <= NESTING_LIMIT && Terminated(rest)
    ensures var s := ListText(ps, rest);
      Terminated(s) && Skip(s)[0] != ']' && ParseElements(num, s, depth) == Parsed(DenotesList(num, ps), rest)
    decreases ps, 1
  {
    hide ParseValue, ParseElements, Skip, DenotesList, Denotes, Lax, ListEnd, NumberChar,
      FormText, Cons;
    var e, more := ps[0], ps[1..];
    DenotesListStep(num, ps);
    if more != [] { PartsAccepted(num, more, rest, depth); }
    ListEndStarts(more, rest);
    var tail := e.after + ListEnd(more, rest);
    BehindElement(e.after, ListEnd(more, rest));
    FormAccepted(num, e.form, tail, depth);
    FormStarts(num, e.form, tail);
    SkipBlank(e.before, FormText(e.form, tail));
    ListTextIs(ps, rest);
    ElementsCases(num, ListText(ps, rest), depth);
    if more == [] {
      DenotesListStep(num, more);
      assert DenotesList(num, ps) == [Denotes(num, e.form)];
    }
    ConsWhole(DenotesList(num, ps), rest);
  }

  lemma ListTextIs(ps: seq<Part>, rest: string)
    requires ps != []
    ensures ListText(ps, rest) == ps[0].before + FormText(ps[0].form, ps[0].after + ListEnd(ps[1..], rest))
  {
  }

  lemma EmptyRecordAccepted(num: Numerics, blank: string, rest: string, depth: nat)
    requires Blank(blank) && depth < NESTING_LIMIT && Terminated(rest)
    ensures var s := FormText(Record(blank, []), rest); Terminated(s) && ParseValue(num, s, depth) == Parsed(Object([]), rest)
  {
    hide ParseValue, ParseMembers, Skip, FormText, Blank;
    BraceText(blank, [], rest);
    TerminatedConcat("}", rest);
    SkipBlank(blank, "}" + rest);
    ObjectOpened(num, [], depth, rest, blank + ("}" + rest));
  }

  lemma {:induction false} RecordAccepted(num: Numerics, blank: string, es: seq<Entry>, rest: string, depth: nat)
    requires Blank(blank) && LaxRecord(num, es)
    requires depth + 1 + HeightOfMembers(DenotesRecord(num, es)) <= NESTING_LIMIT && Terminated(rest)
    ensures var s := FormText(Record(blank, es), rest);
      Terminated(s) && ParseValue(num, s, depth) == Parsed(Object(DenotesRecord(num, es)), rest)
    decreases es, 2
  {
    hide ParseValue, ParseMembers, Skip, DenotesRecord, RecordText, FormText, LaxRecord,
      Blank, Content, Enclosed;
    DenotesRecordStep(num, es);
    if es == [] {
      EmptyRecordAccepted(num, blank, rest, depth);
    } else {
      BraceText(blank, es, rest);
      EntriesAccepted(num, es, rest, depth + 1);
      SkippedFirst(num, RecordText(es, rest), depth + 1);
      ObjectOpened(num, DenotesRecord(num, es), depth, rest, RecordText(es, rest));
    }
  }

  lemma DenotesRecordStep(num: Numerics, es: seq<Entry>)
    requires LaxRecord(num, es)
    ensures es == [] ==> DenotesRecord(num, es) == []
    ensures es != [] ==>
      && Enclosed(es[0].name) && Lax(num, es[0].part.form) && LaxRecord(num, es[1..])
      && var m := Member(Content(es[0].name), Denotes(num, es[0].part.form));
         && DenotesRecord(num, es) == [m] + DenotesRecord(num, es[1..])
         && DenotesRecord(num, es)[0] == m && DenotesRecord(num, es)[1..] == DenotesRecord(num, es[1..])
  {
    hide Denotes, Content, Enclosed;
  }

  lemma RecordEndStarts(es: seq<Entry>, rest: string)
    requires Terminated(rest) && (es != [] ==> Terminated(RecordText(es, rest)))
    ensures var end := RecordEnd(es, rest);
      && Terminated(end)
      && (if es == [] then end[0] == '}' && end[1..] == rest else end[0] == ',' && end[1..] == RecordText(es, rest))
  {
    hide RecordText;
    var more := if es == [] then rest else RecordText(es, rest);
    TerminatedConcat(if es == [] then "}" else ",", more);
  }

  lemma RecordTextIs(es: seq<Entry>, rest: string)
    requires es != []
    ensures var e := es[0].part;
      RecordText(es, rest) ==
        es[0].before
        + NameText(es[0].name, es[0].behind + (":" + (e.before + FormText(e.form, e.after + RecordEnd(es[1..], rest)))))
  {
  }

  /** From the colon on. */
  lemma {:induction false} EntryFormAccepted(num: Numerics, f: Entry, tail: string, depth: nat)
    requires Blank(f.behind) && Blank(f.part.before)
    requires Lax(num, f.part.form) && Nests(Denotes(num, f.part.form), depth)
    requires Terminated(tail) && !NumberChar(tail[0])
    ensures var q := ":" + (f.part.before + FormText(f.part.form, tail));
      && Terminated(f.behind + q) && Skip(f.behind + q) == q && q[0] == ':' && |q| > 1
      && ParseValue(num, Skip(q[1..]), depth) == Parsed(Denotes(num, f.part.form), tail)
    decreases f, 1
  {
    hide ParseValue, Skip, Denotes, Lax, NumberChar, FormText;
    var e := f.part;
    var w := e.before + FormText(e.form, tail);
    FormAccepted(num, e.form, tail, depth);
    FormStarts(num, e.form, tail);
    SkipBlank(e.before, FormText(e.form, tail));
    TerminatedConcat(":", w);
    SkipBlank(f.behind, ":" + w);
    assert (":" + w)[1..] == w;
  }

  lemma {:induction false} EntriesAccepted(num: Numerics, es: seq<Entry>, rest: string, depth: nat)
    requires es != [] && LaxRecord(num, es)
    requires depth + HeightOfMembers(DenotesRecord(num, es)) <= NESTING_LIMIT && Terminated(rest)
    ensures var s := RecordText(es, rest);
      Terminated(s) && Skip(s)[0] != '}' && ParseMembers(num, s, depth) == Parsed(DenotesRecord(num, es), rest)
    decreases es, 1
  {
    hide ParseValue, ParseMember, ParseMembers, ParseString, Skip, DenotesRecord, Denotes,
      Lax, RecordEnd, NumberChar, FormText, Cons, Enclosed, Content;
    var f, more := es[0], es[1..];
    DenotesRecordStep(num, es);
    if more != [] { EntriesAccepted(num, more, rest, depth); }
    RecordEndStarts(more, rest);
    var tail := f.part.after + RecordEnd(more, rest);
    BehindElement(f.part.after, RecordEnd(more, rest));
    EntryFormAccepted(num, f, tail, depth);
    var p := f.behind + (":" + (f.part.before + FormText(f.part.form, tail)));
    NameIsRead(f.name, p);
    SkipBlank(f.before, NameText(f.name, p));
    RecordTextIs(es, rest);
    MemberCases(num, RecordText(es, rest), depth);
    MembersCases(num, RecordText(es, rest), depth);
    if more == [] {
      DenotesRecordStep(num, more);
      assert DenotesRecord(num, es) == [DenotesRecord(num, es)[0]];
    }
    ConsWhole(DenotesRecord(num, es), rest);
  }

  // ----- whole texts

  lemma {:induction false} FormTextAppend(v: Form, rest: string, x: string)
    ensures FormText(v, rest) + x == FormText(v, rest + x)
    decreases v, 2
  {
    match v
    case Word(j) => Assoc(if j.Null? then "null" else if j.True? then "true" else "false", rest, x);
    case Token(t) => Assoc(t, rest, x);
    case Quoted(body) => NameTextAppend(body, rest, x);
    case List(blank, ps) =>
      hide ListText;
      if ps == [] {
        assert "[" + (blank + ("]" + rest)) + x == "[" + (blank + ("]" + (rest + x)));
      } else {
        ListTextAppend(ps, rest, x);
        Assoc("[", ListText(ps, rest), x);
      }
    case Record(blank, es) =>
      hide RecordText;
      if es == [] {
        assert "{" + (blank + ("}" + rest)) + x == "{" + (blank + ("}" + (rest + x)));
      } else {
        RecordTextAppend(es, rest, x);
        Assoc("{", RecordText(es, rest), x);
      }
  }

  lemma NameTextAppend(body: string, rest: string, x: string)
    ensures NameText(body, rest) + x == NameText(body, rest + x)
  {
    Assoc([QUOTE], body + ([QUOTE] + rest), x);
    Assoc(body, [QUOTE] + rest, x);
    Assoc([QUOTE], rest, x);
  }

  lemma {:induction false} ListEndAppend(ps: seq<Part>, rest: string, x: string)
    ensures ListEnd(ps, rest) + x == ListEnd(ps, rest + x)
    decreases ps, 1
  {
    hide ListText;
    if ps == [] {
      Assoc("]", rest, x);
    } else {
      ListTextAppend(ps, rest, x);
      Assoc(",", ListText(ps, rest), x);
    }
  }

  lemma {:induction false} ListTextAppend(ps: seq<Part>, rest: string, x: string)
    requires ps != []
    ensures ListText(ps, rest) + x == ListText(ps, rest + x)
    decreases ps, 0
  {
    hide FormText, ListEnd;
    var e, end := ps[0], ListEnd(ps[1..], rest);
    ListTextIs(ps, rest);
    ListTextIs(ps, rest + x);
    ListEndAppend(ps[1..], rest, x);
    FormTextAppend(e.form, e.after + end, x);
    Assoc(e.before, FormText(e.form, e.after + end), x);
    Assoc(e.after, end, x);
  }

  lemma {:induction false} RecordEndAppend(es: seq<Entry>, rest: string, x: string)
    ensures RecordEnd(es, rest) + x == RecordEnd(es, rest + x)
    decreases es, 1
  {
    hide RecordText;
    if es == [] {
      Assoc("}", rest, x);
    } else {
      RecordTextAppend(es, rest, x);
      Assoc(",", RecordText(es, rest), x);
    }
  }

  lemma {:induction false} RecordTextAppend(es: seq<Entry>, rest: string, x: string)
    requires es != []
    ensures RecordText(es, rest) + x == RecordText(es, rest + x)
    decreases es, 0
  {
    hide FormText, RecordEnd, NameText;
    var f, e, end := es[0], es[0].part, RecordEnd(es[1..], rest);
    RecordTextIs(es, rest);
    RecordTextIs(es, rest + x);
    RecordEndAppend(es[1..], rest, x);
    var t := FormText(e.form, e.after + end);
    FormTextAppend(e.form, e.after + end, x);
    Assoc(e.after, end, x);
    Assoc(e.before, t, x);
    Assoc(":", e.before + t, x);
    Assoc(f.behind, ":" + (e.before + t), x);
    NameTextAppend(f.name, f.behind + (":" + (e.before + t)), x);
    Assoc(f.before, NameText(f.name, f.behind + (":" + (e.before + t))), x);
  }

  lemma TextAccepted(num: Numerics, before: string, v: Form, after: string, strict: bool)
    requires Lax(num, v) && Nests(Denotes(num, v), 0)
    requires Blank(before) && Blank(after)
    ensures Parse(num, before + FormText(v, after), strict) ==
      Parsed(Denotes(num, v), if strict then "\0" else after + "\0")
    ensures before + FormText(v, after) != ""
    ensures Parse(num, MARK + (before + FormText(v, after)), strict) == Parse(num, before + FormText(v, after), strict)
  {
    hide ParseValue, Skip, Denotes, Lax, NumberChar, FormText;
    var end := after + "\0";
    var t := FormText(v, end);
    NulIsNoNumber();
    Ending(after);
    FormTextAppend(v, after, "\0");
    Assoc(before, FormText(v, after), "\0");
    FormAccepted(num, v, end, 0);
    FormStarts(num, v, end);
    FormStarts(num, v, after);
    SkipBlank(before, t);
    NoByteOrderMark(before, t);
    MarkSkipped(before + FormText(v, after));
  }

  /** Only blank characters up to the terminator. */
  lemma Ending(after: string)
    requires Blank(after)
    ensures Terminated(after + "\0") && !NumberChar((after + "\0")[0]) && Skip(after + "\0") == "\0"
  {
    TerminatedConcat(after, "\0");
    SkipToEnd(after);
    if after != "" { assert (after + "\0")[0] == after[0]; }
  }

  lemma {:induction false} SkipToEnd(w: string)
    requires Blank(w)
    ensures Terminated(w + "\0") && Skip(w + "\0") == "\0"
  {
    if w != "" {
      SkipToEnd(w[1..]);
      assert (w + "\0")[1..] == w[1..] + "\0";
    }
  }

  lemma NoByteOrderMark(before: string, t: string)
    requires Blank(before) && Terminated(t) && t[0] as int < 0x80
    ensures SkipBom(before + t) == before + t
  {
    if before == "" { EmptyConcat(t); } else { assert (before + t)[0] == before[0]; }
  }

  /** The byte order mark of UTF-8. */
  const MARK: string := [0xEF as char, 0xBB as char, 0xBF as char]

  lemma MarkSkipped(text: string)
    requires text != ""
    ensures SkipBom(MARK + text + "\0") == text + "\0"
  {
    assert (MARK + text + "\0")[3..] == text + "\0";
  }

  // ----- and the parser accepts nothing else

  lemma {:induction false} SkipSplit(s: string) returns (w: string)
    requires Terminated(s)
    ensures Blank(w) && s == w + Skip(s)
  {
    if |s| > 1 && s[0] <= ' ' {
      var v := SkipSplit(s[1..]);
      w := [s[0]] + v;
    } else {
      w := "";
    }
  }

  lemma StringFound(s: string) returns (body: string)
    requires Terminated(s) && ParseString(s).Parsed?
    ensures Enclosed(body) && s == NameText(body, ParseString(s).rest) && Content(body) == ParseString(s).value
  {
    hide Scan, Decode, UpToNul, ParseString;
    StringParts(s, ParseString(s).value, ParseString(s).rest);
    var t := s[1..];
    var n := Scan(t).value;
    body := t[..n];
    assert t[n] == QUOTE;
    var u := body + [QUOTE];
    assert t[..n + 1] == u[..n + 1];
    ScanLocal(t, u);
    DecodeLocal(t, u, n);
    assert s == [QUOTE] + t && t == body + ([QUOTE] + s[n + 2..]);
  }

  lemma NumberFound(num: Numerics, s: string) returns (t: string)
    requires Terminated(s) && (s[0] == '-' || IsDigit(s[0])) && ParseNumber(num, s).Parsed?
    requires !NumberChar(ParseNumber(num, s).rest[0])
    ensures NumberToken(num, t) && s == t + ParseNumber(num, s).rest
    ensures var d := num.scan(t).value; ParseNumber(num, s).value == Number(ToInt(d), d)
  {
    hide NumberChar, NumberPrefix;
    t := NumberPrefix(s, 63);
    var n := num.scan(t).length;
    var rest := ParseNumber(num, s).rest;
    assert rest == s[n..] && rest[0] == s[n];
    assert forall i :: 0 <= i < |t| ==> s[i] == t[i];
    assert t == s[..n] && t[0] == s[0];
  }

  lemma WordFound(s: string)
    requires Literal(s).Some? && Literal(s).value.1 <= |s|
    ensures s == FormText(Word(Literal(s).value.0), s[Literal(s).value.1..])
  {
    var n := Literal(s).value.1;
    assert s == s[..n] + s[n..];
  }

  /** What stands behind an element that the parser has read is no number character. */
  lemma NoNumberBehind(rest: string)
    requires Terminated(rest) && (Skip(rest)[0] == ',' || Skip(rest)[0] == ']' || Skip(rest)[0] == '}' || |Skip(rest)| == 1)
    ensures !NumberChar(rest[0])
  {
    if rest[0] > ' ' { SkipNothing(rest); }
  }

  /** An accepted value is of the grammar, if no number character stands behind it. */
  lemma {:induction false} FormFound(num: Numerics, s: string, depth: nat) returns (v: Form)
    requires Terminated(s) && ParseValue(num, s, depth).Parsed? && !NumberChar(ParseValue(num, s, depth).rest[0])
    ensures Lax(num, v) && FormText(v, ParseValue(num, s, depth).rest) == s && Denotes(num, v) == ParseValue(num, s, depth).value
    decreases |s|, 1
  {
    hide ParseValue, ParseString, ParseNumber, ParseArray, ParseObject, NumberChar, NumberToken, Enclosed, Content, IsDigit;
    ValueCases(num, s, depth);
    if Literal(s).Some? {
      WordFound(s);
      v := Word(Literal(s).value.0);
    } else if s[0] == QUOTE {
      var body := StringFound(s);
      v := Quoted(body);
    } else if s[0] == '-' || IsDigit(s[0]) {
      var t := NumberFound(num, s);
      v := Token(t);
    } else if s[0] == '[' {
      v := ArrayFound(num, s, depth);
    } else {
      v := ObjectFound(num, s, depth);
    }
  }

  lemma ArrayParts(num: Numerics, s: string, depth: nat)
    requires Terminated(s) && s[0] == '[' && ParseArray(num, s, depth).Parsed?
    ensures |s| > 1
    ensures var r, u := ParseArray(num, s, depth), Skip(s[1..]);
      if u[0] == ']' then r.value == Array([]) && u == "]" + r.rest
      else
        && ParseElements(num, s[1..], depth + 1).Parsed?
        && r == Parsed(Array(ParseElements(num, s[1..], depth + 1).value), ParseElements(num, s[1..], depth + 1).rest)
  {
    hide ParseElements, ParseMembers, ParseValue, Skip;
    SkippedFirst(num, s[1..], depth + 1);
    var u := Skip(s[1..]);
    assert u == [u[0]] + u[1..];
  }

  lemma {:induction false} ArrayFound(num: Numerics, s: string, depth: nat) returns (v: Form)
    requires Terminated(s) && s[0] == '[' && ParseArray(num, s, depth).Parsed?
    ensures Lax(num, v) && FormText(v, ParseArray(num, s, depth).rest) == s && Denotes(num, v) == ParseArray(num, s, depth).value
    decreases |s|, 0
  {
    hide ParseArray, ParseElements, Skip, Lax, LaxList, Denotes, Blank, FormText, ListText;
    ArrayParts(num, s, depth);
    var rest := ParseArray(num, s, depth).rest;
    assert s == "[" + s[1..];
    if Skip(s[1..])[0] == ']' {
      var blank := SkipSplit(s[1..]);
      v := List(blank, []);
      EmptyListIsLax(num, blank);
      BracketText(blank, [], rest);
    } else {
      var ps := PartsFound(num, s[1..], depth + 1);
      v := List("", ps);
      ListIsLax(num, ps);
      BracketText("", ps, rest);
    }
  }

  lemma EmptyListIsLax(num: Numerics, blank: string)
    requires Blank(blank)
    ensures Lax(num, List(blank, [])) && Denotes(num, List(blank, [])) == Array([])
  {
  }

  lemma ListIsLax(num: Numerics, ps: seq<Part>)
    requires LaxList(num, ps)
    ensures Lax(num, List("", ps)) && Denotes(num, List("", ps)) == Array(DenotesList(num, ps))
  {
  }

  lemma {:induction false} PartsFound(num: Numerics, s: string, depth: nat) returns (ps: seq<Part>)
    requires Terminated(s) && ParseElements(num, s, depth).Parsed?
    ensures ps != [] && LaxList(num, ps) && ListText(ps, ParseElements(num, s, depth).rest) == s
    ensures DenotesList(num, ps) == ParseElements(num, s, depth).value
    decreases |s|, 2
  {
    hide ParseValue, ParseElements, Skip, Lax, LaxList, Denotes, DenotesList, FormText, ListText, ListEnd, NumberChar;
    ElementsCases(num, s, depth);
    var r, rest := ParseValue(num, Skip(s), depth), ParseElements(num, s, depth).rest;
    var u := Skip(r.rest);
    NoNumberBehind(r.rest);
    var before := SkipSplit(s);
    var after := SkipSplit(r.rest);
    var v := FormFound(num, Skip(s), depth);
    var more := [];
    if u[0] == ',' { more := PartsFound(num, u[1..], depth); }
    ps := [Part(before, v, after)] + more;
    OnePart(num, Part(before, v, after), more);
    PartsEnd(more, u, rest);
  }

  lemma OnePart(num: Numerics, p: Part, more: seq<Part>)
    requires Blank(p.before) && Lax(num, p.form) && Blank(p.after) && (more != [] ==> LaxList(num, more))
    ensures LaxList(num, [p] + more) && ([p] + more)[0] == p && ([p] + more)[1..] == more
    ensures forall rest :: ListText([p] + more, rest) == p.before + FormText(p.form, p.after + ListEnd(more, rest))
    ensures more == [] ==> DenotesList(num, [p] + more) == [Denotes(num, p.form)]
    ensures more != [] ==> DenotesList(num, [p] + more) == [Denotes(num, p.form)] + DenotesList(num, more)
  {
    hide Lax, Denotes, FormText, ListEnd, Blank;
    var ps := [p] + more;
    assert forall i :: 0 < i < |ps| ==> ps[i] == more[i - 1];
  }

  lemma PartsEnd(more: seq<Part>, u: string, rest: string)
    requires u != [] && (if more == [] then u[0] == ']' && u[1..] == rest else u[0] == ',' && ListText(more, rest) == u[1..])
    ensures ListEnd(more, rest) == u
  {
    hide ListText;
    assert u == [u[0]] + u[1..];
  }

  lemma ObjectParts(num: Numerics, s: string, depth: nat)
    requires Terminated(s) && s[0] == '{' && ParseObject(num, s, depth).Parsed?
    ensures |s| > 1
    ensures var r, u := ParseObject(num, s, depth), Skip(s[1..]);
      if u[0] == '}' then r.value == Object([]) && u == "}" + r.rest
      else
        && ParseMembers(num, s[1..], depth + 1).Parsed?
        && r == Parsed(Object(ParseMembers(num, s[1..], depth + 1).value), ParseMembers(num, s[1..], depth + 1).rest)
  {
    hide ParseElements, ParseMembers, ParseValue, Skip;
    SkippedFirst(num, s[1..], depth + 1);
    var u := Skip(s[1..]);
    assert u == [u[0]] + u[1..];
  }

  lemma {:induction false} ObjectFound(num: Numerics, s: string, depth: nat) returns (v: Form)
    requires Terminated(s) && s[0] == '{' && ParseObject(num, s, depth).Parsed?
    ensures Lax(num, v) && FormText(v, ParseObject(num, s, depth).rest) == s && Denotes(num, v) == ParseObject(num, s, depth).value
    decreases |s|, 0
  {
    hide ParseObject, ParseMembers, Skip, Lax, LaxRecord, Denotes, Blank, FormText, RecordText;
    ObjectParts(num, s, depth);
    var rest := ParseObject(num, s, depth).rest;
    assert s == "{" + s[1..];
    if Skip(s[1..])[0] == '}' {
      var blank := SkipSplit(s[1..]);
      v := Record(blank, []);
      EmptyRecordIsLax(num, blank);
      BraceText(blank, [], rest);
    } else {
      var es := EntriesFound(num, s[1..], depth + 1);
      v := Record("", es);
      RecordIsLax(num, es);
      BraceText("", es, rest);
    }
  }

  lemma EmptyRecordIsLax(num: Numerics, blank: string)
    requires Blank(blank)
    ensures Lax(num, Record(blank, [])) && Denotes(num, Record(blank, [])) == Object([])
  {
  }

  lemma RecordIsLax(num: Numerics, es: seq<Entry>)
    requires LaxRecord(num, es)
    ensures Lax(num, Record("", es)) && Denotes(num, Record("", es)) == Object(DenotesRecord(num, es))
  {
  }

  /** The parts of an accepted member. */
  lemma MemberParts(num: Numerics, s: string, depth: nat)
    requires Terminated(s) && ParseMember(num, s, depth).Parsed?
    ensures ParseString(Skip(s)).Parsed?
    ensures var u := Skip(ParseString(Skip(s)).rest);
      && u[0] == ':' && |u| > 1
      && ParseValue(num, Skip(u[1..]), depth).Parsed?
      && |ParseValue(num, Skip(u[1..]), depth).rest| < |s| && Terminated(ParseValue(num, Skip(u[1..]), depth).rest)
      && ParseMember(num, s, depth).rest == ParseValue(num, Skip(u[1..]), depth).rest
      && ParseMember(num, s, depth).value
           == Member(ParseString(Skip(s)).value, ParseValue(num, Skip(u[1..]), depth).value)
  {
    hide ParseString, ParseValue, Skip;
  }

  lemma OneEntryIsLax(num: Numerics, e: Entry)
    requires Blank(e.before) && Enclosed(e.name) && Blank(e.behind)
    requires Blank(e.part.before) && Lax(num, e.part.form) && Blank(e.part.after)
    ensures LaxRecord(num, [e])
  {
    hide Lax, Enclosed, Blank;
  }

  /** The name, the colon and the value of a member, and what stands between them. */
  lemma {:induction false} EntryFound(num: Numerics, s: string, depth: nat, after: string) returns (e: Entry)
    requires Terminated(s) && ParseMember(num, s, depth).Parsed? && !NumberChar(ParseMember(num, s, depth).rest[0])
    requires Blank(after)
    ensures LaxRecord(num, [e]) && Enclosed(e.name) && Lax(num, e.part.form) && e.part.after == after
    ensures Member(Content(e.name), Denotes(num, e.part.form)) == ParseMember(num, s, depth).value
    ensures s == e.before + NameText(e.name, e.behind + (":" + (e.part.before + FormText(e.part.form, ParseMember(num, s, depth).rest))))
    decreases |s|, 2
  {
    hide ParseValue, ParseMember, ParseString, Skip, Lax, LaxRecord, Denotes, FormText, NameText, NumberChar, Enclosed,
      Content, Blank;
    MemberParts(num, s, depth);
    var before := SkipSplit(s);
    var name := ParseString(Skip(s));
    var body := StringFound(Skip(s));
    var behind := SkipSplit(name.rest);
    var u := Skip(name.rest);
    var between := SkipSplit(u[1..]);
    var v := FormFound(num, Skip(u[1..]), depth);
    e := Entry(before, body, behind, Part(between, v, after));
    assert u == ":" + u[1..];
    OneEntryIsLax(num, e);
  }

  lemma {:induction false} EntriesFound(num: Numerics, s: string, depth: nat) returns (es: seq<Entry>)
    requires Terminated(s) && ParseMembers(num, s, depth).Parsed?
    ensures es != [] && LaxRecord(num, es) && RecordText(es, ParseMembers(num, s, depth).rest) == s
    ensures DenotesRecord(num, es) == ParseMembers(num, s, depth).value
    decreases |s|, 3
  {
    hide ParseValue, ParseMember, ParseMembers, Skip, Lax, LaxRecord, Denotes, DenotesRecord, FormText, RecordText,
      RecordEnd, NumberChar, NameText, Content;
    MembersCases(num, s, depth);
    var r, rest := ParseMember(num, s, depth), ParseMembers(num, s, depth).rest;
    var u := Skip(r.rest);
    NoNumberBehind(r.rest);
    var after := SkipSplit(r.rest);
    var e := EntryFound(num, s, depth, after);
    var more := [];
    if u[0] == ',' { more := EntriesFound(num, u[1..], depth); }
    es := [e] + more;
    OneEntry(num, e, more);
    EntriesEnd(more, u, rest);
  }

  /** The text of one member, with what follows it. */
  function EntryText(e: Entry, rest: string): string {
    e.before + NameText(e.name, e.behind + (":" + (e.part.before + FormText(e.part.form, e.part.after + rest))))
  }

  lemma OneEntry(num: Numerics, e: Entry, more: seq<Entry>)
    requires LaxRecord(num, [e]) && (more != [] ==> LaxRecord(num, more))
    ensures LaxRecord(num, [e] + more) && Enclosed(e.name) && Lax(num, e.part.form)
    ensures forall rest :: RecordText([e] + more, rest) == EntryText(e, RecordEnd(more, rest))
    ensures var m := Member(Content(e.name), Denotes(num, e.part.form));
      DenotesRecord(num, [e] + more) == if more == [] then [m] else [m] + DenotesRecord(num, more)
  {
    hide Lax, Denotes, FormText, RecordEnd, Blank, Enclosed, Content, NameText;
    var es := [e] + more;
    assert [e][0] == e && es[0] == e && es[1..] == more;
    assert forall i :: 0 < i < |es| ==> es[i] == more[i - 1];
  }

  lemma EntriesEnd(more: seq<Entry>, u: string, rest: string)
    requires u != [] && (if more == [] then u[0] == '}' && u[1..] == rest else u[0] == ',' && RecordText(more, rest) == u[1..])
    ensures RecordEnd(more, rest) == u
  {
    hide RecordText;
    assert u == [u[0]] + u[1..];
  }

  // ----- whole texts

  /** A text: maybe a byte order mark, then a value with blank characters around it. */
  datatype Whole = Whole(mark: bool, before: string, form: Form, after: string)

  function WholeText(w: Whole): string {
    (if w.mark then MARK else "") + (w.before + FormText(w.form, w.after))
  }

  predicate LaxWhole(num: Numerics, w: Whole) {
    Blank(w.before) && Lax(num, w.form) && Blank(w.after) && Nests(Denotes(num, w.form), 0)
  }

  lemma WholeAccepted(num: Numerics, w: Whole)
    requires LaxWhole(num, w)
    ensures Parse(num, WholeText(w), true) == Parsed(Denotes(num, w.form), "\0")
  {
    hide Parse, FormText, Denotes, Lax;
    TextAccepted(num, w.before, w.form, w.after, true);
    EmptyConcat(w.before + FormText(w.form, w.after));
  }

  lemma WholeFound(num: Numerics, text: string) returns (w: Whole)
    requires Parse(num, text, true).Parsed?
    ensures LaxWhole(num, w) && WholeText(w) == text
  {
    hide ParseValue, Skip, Denotes, Lax, NumberChar, FormText;
    var s := text + "\0";
    var t := SkipBom(s);
    var r := ParseValue(num, Skip(t), 0);
    var u := Skip(r.rest);
    NoNumberBehind(r.rest);
    var before := SkipSplit(t);
    var end := SkipSplit(r.rest);
    var v := FormFound(num, Skip(t), 0);
    ParsedWithinLimit(num, Skip(t), 0);
    w := Whole(t != s, before, v, end);
    assert r.rest == end + "\0";
    FormTextAppend(v, end, "\0");
    Assoc(before, FormText(v, end), "\0");
    WithoutNul(text, t, before + FormText(v, end));
  }

  lemma WithoutNul(text: string, t: string, inner: string)
    requires t == SkipBom(text + "\0") && t == inner + "\0"
    ensures text == (if t != text + "\0" then MARK else "") + inner
  {
    var s := text + "\0";
    if t == s {
      assert text == s[..|s| - 1] && inner == t[..|t| - 1];
    } else {
      assert s[..3] == MARK && s == MARK + t && text == s[..|s| - 1];
      assert MARK + (inner + "\0") == MARK + inner + "\0";
    }
  }

  /**
   * A text is accepted if and only if it is one of the grammar that is nested within the limit, and
   * then with the tree that it denotes.
   */
  lemma AcceptedExactlyWhenLax(num: Numerics, text: string)
    ensures Parse(num, text, true).Parsed? <==> exists w :: LaxWhole(num, w) && WholeText(w) == text
    ensures forall w :: LaxWhole(num, w) && WholeText(w) == text ==>
      Parse(num, text, true) == Parsed(Denotes(num, w.form), "\0")
  {
    hide Parse, WholeText, Lax, Denotes, Nests;
    if Parse(num, text, true).Parsed? { var w := WholeFound(num, text); }
    forall w | LaxWhole(num, w) && WholeText(w) == text
      ensures Parse(num, text, true) == Parsed(Denotes(num, w.form), "\0")
    {
      WholeAccepted(num, w);
    }
  }

  /** A text that is no JSON: a control character in front of a literal. */
  lemma ControlCharacterAccepted(num: Numerics)
    ensures Parse(num, [1 as char] + "null", true) == Parsed(Null, "\0")
  {
    hide Parse;
    var w := Whole(false, [1 as char], Word(Null), "");
    assert WholeText(w) == "" + ([1 as char] + ("null" + "")) == [1 as char] + "null";
    WholeAccepted(num, w);
  }

  // ----- parsing that stops behind the value

  /** Without the demand for the terminator, what follows the value is left, whatever it is. */
  lemma PrefixAccepted(num: Numerics, before: string, v: Form, rest: string)
    requires Blank(before) && Lax(num, v) && Nests(Denotes(num, v), 0) && (rest != "" ==> !NumberChar(rest[0]))
    ensures Parse(num, before + FormText(v, rest), false) == Parsed(Denotes(num, v), rest + "\0")
  {
    hide ParseValue, Skip, Denotes, Lax, NumberChar, FormText;
    var end := rest + "\0";
    var t := FormText(v, end);
    NulIsNoNumber();
    TerminatedConcat(rest, "\0");
    FormTextAppend(v, rest, "\0");
    Assoc(before, FormText(v, rest), "\0");
    FormAccepted(num, v, end, 0);
    FormStarts(num, v, end);
    SkipBlank(before, t);
    NoByteOrderMark(before, t);
  }

  /** And what is in front of what is left is a value, unless a number goes on there. */
  lemma PrefixFound(num: Numerics, text: string) returns (mark: bool, before: string, v: Form, rest: string)
    requires Parse(num, text, false).Parsed? && !NumberChar(Parse(num, text, false).rest[0])
    ensures Blank(before) && Lax(num, v) && Nests(Denotes(num, v), 0)
    ensures text == (if mark then MARK else "") + (before + FormText(v, rest))
    ensures Parse(num, text, false) == Parsed(Denotes(num, v), rest + "\0")
  {
    hide ParseValue, Skip, Denotes, Lax, NumberChar, FormText;
    var s := text + "\0";
    var t := SkipBom(s);
    var r := ParseValue(num, Skip(t), 0);
    before := SkipSplit(t);
    v := FormFound(num, Skip(t), 0);
    ParsedWithinLimit(num, Skip(t), 0);
    mark, rest := t != s, r.rest[..|r.rest| - 1];
    assert r.rest == rest + "\0";
    FormTextAppend(v, rest, "\0");
    Assoc(before, FormText(v, rest), "\0");
    WithoutNul(text, t, before + FormText(v, rest));
  }
}
