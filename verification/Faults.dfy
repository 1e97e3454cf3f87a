// Where the parser reports an error: at the first thing that cannot go on, however deep it stands in
// lists and records; a missing name is reported one character too late.
module Faults {
  import opened Texts
  import opened Documents
  import opened Comparing
  import opened StringCodec
  import opened Grammar
  import opened RoundTripping
  import opened Acceptance

  /** An open list or record, up to the place of a value. */
  datatype Frame =
    | InList(parts: seq<Part>, before: string)
    | InRecord(entries: seq<Entry>, before: string, name: string, behind: string, between: string)

  /** Elements with their commas, and what follows. */
  function PartsThen(ps: seq<Part>, s: string): string {
    if ps == [] then s else ps[0].before + FormText(ps[0].form, ps[0].after + ("," + PartsThen(ps[1..], s)))
  }

  function EntriesThen(es: seq<Entry>, s: string): string {
    if es == [] then s else EntryText(es[0], "," + EntriesThen(es[1..], s))
  }

  function FrameText(f: Frame, s: string): string {
    match f
    case InList(ps, before) => "[" + PartsThen(ps, before + s)
    case InRecord(es, before, name, behind, between) =>
      "{" + EntriesThen(es, before + NameText(name, behind + (":" + (between + s))))
  }

  /** Values that nest within the limit, read at a depth. */
  predicate Parts(num: Numerics, ps: seq<Part>, depth: nat) {
    LaxList(num, ps) && depth + HeightOfItems(DenotesList(num, ps)) <= NESTING_LIMIT
  }

  predicate Entries(num: Numerics, es: seq<Entry>, depth: nat) {
    LaxRecord(num, es) && depth + HeightOfMembers(DenotesRecord(num, es)) <= NESTING_LIMIT
  }

  predicate LaxFrame(num: Numerics, f: Frame, depth: nat) {
    depth < NESTING_LIMIT
    && match f
       case InList(ps, before) => Parts(num, ps, depth + 1) && Blank(before)
       case InRecord(es, before, name, behind, between) =>
         Entries(num, es, depth + 1) && Blank(before) && Enclosed(name) && Blank(behind) && Blank(between)
  }

  /** A place where a token or the terminator stands. */
  predicate Stop(s: string) { Terminated(s) && (|s| == 1 || s[0] > ' ') }

  lemma {:induction false} SkipTo(w: string, s: string)
    requires Blank(w) && Stop(s)
    ensures Terminated(w + s) && Skip(w + s) == s
  {
    if |s| > 1 {
      SkipBlank(w, s);
    } else {
      assert s == "\0";
      SkipToEnd(w);
    }
  }

  // ----- errors behind elements and members that were read

  lemma PartsStep(num: Numerics, ps: seq<Part>, depth: nat)
    requires ps != [] && Parts(num, ps, depth)
    ensures Parts(num, ps[1..], depth) && Blank(ps[0].before) && Blank(ps[0].after)
    ensures Lax(num, ps[0].form) && Nests(Denotes(num, ps[0].form), depth)
  {
    DenotesListStep(num, ps);
  }

  lemma NoNumberAt(after: string, more: string)
    requires Blank(after) && more != ""
    ensures !NumberChar(more[0]) ==> !NumberChar((after + more)[0])
    ensures more[0] == ',' ==> !NumberChar((after + more)[0])
  {
    if after == "" {
      EmptyConcat(more);
    } else {
      assert (after + more)[0] == after[0];
      if NumberChar(after[0]) { NumberAbove(after[0]); }
    }
  }

  /** An error in what follows some elements is the error of the list. */
  lemma {:induction false} ElementsFail(num: Numerics, ps: seq<Part>, s: string, depth: nat, at: string)
    requires Parts(num, ps, depth) && Terminated(s) && ParseElements(num, s, depth) == Fail(at)
    ensures Terminated(PartsThen(ps, s)) && ParseElements(num, PartsThen(ps, s), depth) == Fail(at)
  {
    hide ParseElements, ParseValue, Parts, Lax, Denotes, FormText, Skip, NumberChar;
    if ps != [] {
      var p, more := ps[0], "," + PartsThen(ps[1..], s);
      PartsStep(num, ps, depth);
      ElementsFail(num, ps[1..], s, depth, at);
      TerminatedConcat(",", PartsThen(ps[1..], s));
      NoNumberAt(p.after, more);
      ElementRead(num, p, more, depth);
      ElementsCases(num, PartsThen(ps, s), depth);
      assert more[1..] == PartsThen(ps[1..], s);
    }
  }

  /** One element, in front of a comma or anything else that is no number character. */
  lemma ElementRead(num: Numerics, p: Part, more: string, depth: nat)
    requires Blank(p.before) && Blank(p.after) && Lax(num, p.form) && Nests(Denotes(num, p.form), depth)
    requires Stop(more) && !NumberChar((p.after + more)[0])
    ensures var s := p.before + FormText(p.form, p.after + more);
      && Terminated(s) && Terminated(p.after + more) && Skip(p.after + more) == more
      && ParseValue(num, Skip(s), depth) == Parsed(Denotes(num, p.form), p.after + more)
  {
    hide ParseValue, Lax, Denotes, FormText, Skip, NumberChar;
    SkipTo(p.after, more);
    FormAccepted(num, p.form, p.after + more, depth);
    FormStarts(num, p.form, p.after + more);
    SkipBlank(p.before, FormText(p.form, p.after + more));
  }

  lemma EntriesStep(num: Numerics, es: seq<Entry>, depth: nat)
    requires es != [] && Entries(num, es, depth)
    ensures Entries(num, es[1..], depth) && EntryReadable(num, es[0], depth)
  {
    hide FormText, Lax, Denotes, Enclosed, Content;
    DenotesRecordStep(num, es);
  }

  predicate EntryReadable(num: Numerics, e: Entry, depth: nat) {
    && Blank(e.before) && Enclosed(e.name) && Blank(e.behind)
    && Blank(e.part.before) && Blank(e.part.after) && Lax(num, e.part.form) && Nests(Denotes(num, e.part.form), depth)
  }

  /** A name and its colon are read. */
  lemma NameAndColon(num: Numerics, before: string, name: string, behind: string, q: string)
    requires Blank(before) && Enclosed(name) && Blank(behind) && Terminated(q) && q[0] == ':'
    ensures var s := before + NameText(name, behind + q);
      && Terminated(s) && Skip(s)[0] == QUOTE && ParseString(Skip(s)) == Parsed(Content(name), behind + q)
      && Terminated(behind + q) && Skip(behind + q) == q
  {
    hide ParseString, Enclosed, Content, Skip;
    SkipBlank(behind, q);
    NameIsRead(name, behind + q);
    SkipBlank(before, NameText(name, behind + q));
  }

  /** One member, in front of a comma or anything else that is no number character. */
  lemma EntryRead(num: Numerics, e: Entry, more: string, depth: nat)
    requires EntryReadable(num, e, depth) && Stop(more) && !NumberChar((e.part.after + more)[0])
    ensures var s := EntryText(e, more);
      && Terminated(s) && Terminated(e.part.after + more) && Skip(e.part.after + more) == more
      && ParseMember(num, s, depth)
           == Parsed(Member(Content(e.name), Denotes(num, e.part.form)), e.part.after + more)
      && Skip(s)[0] == QUOTE
  {
    hide ParseValue, ParseMember, ParseString, Lax, Denotes, FormText, NameText, Skip, NumberChar, Enclosed, Content, Blank;
    ElementRead(num, e.part, more, depth);
    var x := e.part.before + FormText(e.part.form, e.part.after + more);
    TerminatedConcat(":", x);
    NameAndColon(num, e.before, e.name, e.behind, ":" + x);
    assert (":" + x)[1..] == x;
    MemberCases(num, EntryText(e, more), depth);
  }

  lemma {:induction false} MembersFail(num: Numerics, es: seq<Entry>, s: string, depth: nat, at: string)
    requires Entries(num, es, depth) && Terminated(s) && ParseMembers(num, s, depth) == Fail(at)
    ensures Terminated(EntriesThen(es, s)) && ParseMembers(num, EntriesThen(es, s), depth) == Fail(at)
  {
    hide ParseMembers, ParseMember, Entries, EntryReadable, EntryText, Skip, NumberChar;
    if es != [] {
      var more := "," + EntriesThen(es[1..], s);
      EntriesStep(num, es, depth);
      MembersFail(num, es[1..], s, depth, at);
      TerminatedConcat(",", EntriesThen(es[1..], s));
      AfterIsBlank(num, es[0], depth);
      NoNumberAt(es[0].part.after, more);
      EntryRead(num, es[0], more, depth);
      MembersCases(num, EntriesThen(es, s), depth);
      assert more[1..] == EntriesThen(es[1..], s);
    }
  }

  lemma AfterIsBlank(num: Numerics, e: Entry, depth: nat)
    requires EntryReadable(num, e, depth)
    ensures Blank(e.part.after)
  {
  }

  // ----- lists and records as values

  /** The list fails where the walk over its elements does. */
  lemma ListFails(num: Numerics, body: string, depth: nat, at: string)
    requires Terminated(body) && depth < NESTING_LIMIT && Skip(body)[0] != ']' && ParseElements(num, body, depth + 1) == Fail(at)
    ensures Terminated("[" + body) && ParseValue(num, "[" + body, depth) == Fail(at)
  {
    hide ParseValue, ParseElements, ParseMembers, Skip;
    var s := "[" + body;
    TerminatedConcat("[", body);
    assert s[1..] == body;
    ValueCases(num, s, depth);
    SkippedFirst(num, body, depth + 1);
  }

  lemma RecordFails(num: Numerics, body: string, depth: nat, at: string)
    requires Terminated(body) && depth < NESTING_LIMIT && Skip(body)[0] != '}' && ParseMembers(num, body, depth + 1) == Fail(at)
    ensures Terminated("{" + body) && ParseValue(num, "{" + body, depth) == Fail(at)
  {
    hide ParseValue, ParseElements, ParseMembers, Skip;
    var s := "{" + body;
    TerminatedConcat("{", body);
    assert s[1..] == body;
    ValueCases(num, s, depth);
    SkippedFirst(num, body, depth + 1);
  }

  /** The first thing in a list is an element, unless the list closes there. */
  lemma PartsStart(num: Numerics, ps: seq<Part>, s: string, depth: nat)
    requires Parts(num, ps, depth) && Terminated(s) && Terminated(PartsThen(ps, s)) && (ps == [] ==> Skip(s)[0] != ']')
    ensures Skip(PartsThen(ps, s))[0] != ']'
  {
    hide FormText, Parts, Skip, Lax, Denotes;
    if ps != [] {
      PartsStep(num, ps, depth);
      var t := FormText(ps[0].form, ps[0].after + ("," + PartsThen(ps[1..], s)));
      FormStarts(num, ps[0].form, ps[0].after + ("," + PartsThen(ps[1..], s)));
      FrontTerminated(ps[0].before, t);
      SkipBlank(ps[0].before, t);
    }
  }

  lemma FrontTerminated(a: string, t: string)
    requires Terminated(a + t) && t != ""
    ensures Terminated(t)
  {
  }

  lemma EntriesStart(num: Numerics, es: seq<Entry>, s: string, depth: nat)
    requires Entries(num, es, depth) && Terminated(s) && Terminated(EntriesThen(es, s)) && (es == [] ==> Skip(s)[0] != '}')
    ensures Skip(EntriesThen(es, s))[0] != '}'
  {
    hide FormText, Entries, Skip, Lax, Denotes;
    if es != [] {
      EntriesStep(num, es, depth);
      var t := EntriesThen(es, s);
      var u := t[|es[0].before|..];
      assert t == es[0].before + u && u[0] == QUOTE;
      FrontTerminated(es[0].before, u);
      SkipBlank(es[0].before, u);
    }
  }

  // ----- errors pass through

  /** An error at the place of a value is the error of the list or record around it. */
  lemma FaultPasses(num: Numerics, f: Frame, s: string, depth: nat, at: string)
    requires LaxFrame(num, f, depth) && Stop(s) && (f == InList([], f.before) ==> s[0] != ']')
    requires ParseValue(num, s, depth + 1) == Fail(at)
    ensures Stop(FrameText(f, s)) && (FrameText(f, s)[0] == '[' || FrameText(f, s)[0] == '{')
    ensures ParseValue(num, FrameText(f, s), depth) == Fail(at)
  {
    match f
    case InList(ps, before) => FaultInList(num, ps, before, s, depth, at);
    case InRecord(es, before, name, behind, between) => FaultInRecord(num, es, before, name, behind, between, s, depth, at);
  }

  lemma FaultInList(num: Numerics, ps: seq<Part>, before: string, s: string, depth: nat, at: string)
    requires depth < NESTING_LIMIT && Parts(num, ps, depth + 1) && Blank(before)
    requires Stop(s) && (ps == [] ==> s[0] != ']') && ParseValue(num, s, depth + 1) == Fail(at)
    ensures var t := "[" + PartsThen(ps, before + s); Terminated(t) && |t| > 1 && ParseValue(num, t, depth) == Fail(at)
  {
    hide ParseValue, ParseElements, Skip, Parts, PartsThen;
    SkipTo(before, s);
    ElementsCases(num, before + s, depth + 1);
    ElementsFail(num, ps, before + s, depth + 1, at);
    PartsStart(num, ps, before + s, depth + 1);
    ListFails(num, PartsThen(ps, before + s), depth, at);
  }

  lemma FaultInRecord(num: Numerics, es: seq<Entry>, before: string, name: string, behind: string, between: string, s: string,
                      depth: nat, at: string)
    requires depth < NESTING_LIMIT && Entries(num, es, depth + 1)
    requires Blank(before) && Enclosed(name) && Blank(behind) && Blank(between)
    requires Stop(s) && ParseValue(num, s, depth + 1) == Fail(at)
    ensures var t := "{" + EntriesThen(es, before + NameText(name, behind + (":" + (between + s))));
      Terminated(t) && |t| > 1 && ParseValue(num, t, depth) == Fail(at)
  {
    hide ParseValue, ParseMember, ParseMembers, ParseString, Skip, Entries, EntriesThen, NameText, Enclosed, Content;
    SkipTo(between, s);
    var q := ":" + (between + s);
    TerminatedConcat(":", between + s);
    NameAndColon(num, before, name, behind, q);
    var body := before + NameText(name, behind + q);
    assert q[1..] == between + s;
    MemberFails(num, body, depth + 1);
    MembersCases(num, body, depth + 1);
    MembersFail(num, es, body, depth + 1, at);
    EntriesStart(num, es, body, depth + 1);
    RecordFails(num, EntriesThen(es, body), depth, at);
  }

  /** How a member fails. */
  lemma MemberFails(num: Numerics, s: string, depth: nat)
    requires Terminated(s)
    ensures var name := ParseString(Skip(s));
      && (name.Fail? ==> ParseMember(num, s, depth) == Fail(name.at))
      && (name.Parsed? ==>
            var u := Skip(name.rest);
            && (u[0] != ':' ==> ParseMember(num, s, depth) == Fail(u))
            && (u[0] == ':' && |u| > 1 && ParseValue(num, Skip(u[1..]), depth).Fail? ==>
                  ParseMember(num, s, depth) == Fail(ParseValue(num, Skip(u[1..]), depth).at)))
  {
    hide ParseString, ParseValue, Skip;
  }

  /** Frames around a text, the outermost first. */
  function Inside(fs: seq<Frame>, s: string): string { if fs == [] then s else FrameText(fs[0], Inside(fs[1..], s)) }

  predicate LaxContext(num: Numerics, fs: seq<Frame>, depth: nat) {
    fs != [] ==> LaxFrame(num, fs[0], depth) && LaxContext(num, fs[1..], depth + 1)
  }

  /** The innermost frame is a list without elements: there a closing bracket is no error. */
  predicate MayClose(fs: seq<Frame>) { fs != [] && fs[|fs| - 1].InList? && fs[|fs| - 1].parts == [] }

  lemma {:induction false} FaultPassesAll(num: Numerics, fs: seq<Frame>, s: string, depth: nat, at: string)
    requires LaxContext(num, fs, depth) && Stop(s) && (MayClose(fs) ==> s[0] != ']')
    requires ParseValue(num, s, depth + |fs|) == Fail(at)
    ensures Stop(Inside(fs, s)) && (fs != [] ==> Inside(fs, s)[0] == '[' || Inside(fs, s)[0] == '{')
    ensures ParseValue(num, Inside(fs, s), depth) == Fail(at)
    decreases |fs|
  {
    hide ParseValue, LaxFrame, FrameText, Stop;
    if fs != [] {
      FaultPassesAll(num, fs[1..], s, depth + 1, at);
      FaultPasses(num, fs[0], Inside(fs[1..], s), depth, at);
    }
  }

  /**
   * Whatever was read before it, in however many lists and records, an error at the place of a value
   * is where the parser says that the text is in error.
   */
  lemma FaultPosition(num: Numerics, mark: bool, before: string, fs: seq<Frame>, s: string, at: string, text: string, strict: bool)
    requires Blank(before) && LaxContext(num, fs, 0) && Stop(s) && (MayClose(fs) ==> s[0] != ']') && s[0] as int < 0x80
    requires ParseValue(num, s, |fs|) == Fail(at)
    requires text + "\0" == (if mark then MARK else "") + (before + Inside(fs, s)) && text != MARK
    ensures Parse(num, text, strict) == Fail(at)
  {
    hide ParseValue, LaxContext, Skip, FrameText;
    var t := Inside(fs, s);
    FaultPassesAll(num, fs, s, 0, at);
    SkipTo(before, t);
    assert t[0] as int < 0x80;
    var u := before + t;
    if mark {
      assert MARK + "\0" != text + "\0" by { if MARK + "\0" == text + "\0" { SameText(text, MARK); } }
      assert |u| == 1 ==> u == "\0";
      MarkedLength(text, u);
    } else {
      EmptyConcat(u);
      NoByteOrderMark(before, t);
    }
    assert SkipBom(text + "\0") == u;
  }

  lemma SameText(a: string, b: string)
    requires a + "\0" == b + "\0"
    ensures a == b
  {
    assert a == (a + "\0")[..|a|] && b == (b + "\0")[..|b|];
  }

  lemma MarkedLength(text: string, u: string)
    requires text + "\0" == MARK + u && Terminated(u)
    ensures |u| > 1 ==> SkipBom(text + "\0") == u
  {
    var s := text + "\0";
    assert s[..3] == MARK && s[3..] == u;
  }

  // ----- what an error is

  /** Where a value should start: anything that starts none. */
  lemma NoValueFails(num: Numerics, s: string, depth: nat)
    requires Stop(s) && Literal(s).None? && s[0] != QUOTE && s[0] != '-' && !IsDigit(s[0]) && s[0] != '[' && s[0] != '{'
    ensures ParseValue(num, s, depth) == Fail(s)
  {
  }

  /** A list or a record beyond the nesting limit. */
  lemma TooDeepFails(num: Numerics, s: string, depth: nat)
    requires Terminated(s) && (s[0] == '[' || s[0] == '{') && depth >= NESTING_LIMIT
    ensures ParseValue(num, s, depth) == Fail(s)
  {
    ValueCases(num, s, depth);
  }

  /** A numeral of which strtod takes nothing. */
  lemma NumberFails(num: Numerics, t: string, rest: string, depth: nat)
    requires 1 <= |t| <= 63 && (t[0] == '-' || IsDigit(t[0])) && AllNumber(t) && num.scan(t).length == 0
    requires Terminated(rest) && !NumberChar(rest[0])
    ensures ParseValue(num, t + rest, depth) == Fail(t + rest)
  {
    hide NumberChar;
    TerminatedConcat(t, rest);
    PrefixStops(t, rest, 63);
    ValueCases(num, t + rest, depth);
  }

  /** A string without an end: the place behind its opening quote. */
  lemma OpenStringFails(num: Numerics, t: string, depth: nat)
    requires Terminated(t) && Scan(t) == None
    ensures ParseString([QUOTE] + t) == Fail(t) && ParseValue(num, [QUOTE] + t, depth) == Fail(t)
  {
    var s := [QUOTE] + t;
    assert s[1..] == t;
    TerminatedConcat([QUOTE], t);
    ValueCases(num, s, depth);
  }

  /** An element with neither a comma nor the closing bracket behind it. */
  lemma NoCommaFails(num: Numerics, ps: seq<Part>, p: Part, s: string, depth: nat)
    requires depth < NESTING_LIMIT && Parts(num, ps, depth + 1)
    requires Blank(p.before) && Blank(p.after) && Lax(num, p.form) && Nests(Denotes(num, p.form), depth + 1)
    requires Stop(s) && s[0] != ',' && s[0] != ']' && !NumberChar((p.after + s)[0])
    ensures var t := "[" + PartsThen(ps, p.before + FormText(p.form, p.after + s)); Terminated(t) && ParseValue(num, t, depth) == Fail(s)
  {
    hide ParseValue, ParseElements, Skip, Parts, PartsThen, Lax, Denotes, FormText, NumberChar;
    var body := p.before + FormText(p.form, p.after + s);
    ElementRead(num, p, s, depth + 1);
    ElementsCases(num, body, depth + 1);
    ElementsFail(num, ps, body, depth + 1, s);
    FormStarts(num, p.form, p.after + s);
    SkipBlank(p.before, FormText(p.form, p.after + s));
    PartsStart(num, ps, body, depth + 1);
    ListFails(num, PartsThen(ps, body), depth, s);
  }

  /** No name where one should be: the error is reported behind the first character that is none. */
  lemma NoNameFails(num: Numerics, es: seq<Entry>, before: string, s: string, depth: nat)
    requires depth < NESTING_LIMIT && Entries(num, es, depth + 1) && Blank(before)
    requires Stop(s) && s[0] != QUOTE && (es == [] ==> s[0] != '}')
    ensures var t := "{" + EntriesThen(es, before + s); Terminated(t) && ParseValue(num, t, depth) == Fail(s[1..])
  {
    hide ParseValue, ParseMember, ParseMembers, Skip, Entries, EntriesThen;
    SkipTo(before, s);
    EntryFails(num, es, before + s, depth, s[1..]);
  }

  /** A name that is no string, an escape that is none, or a literal that is no text. */
  lemma BadNameFails(num: Numerics, es: seq<Entry>, before: string, s: string, depth: nat, at: string)
    requires depth < NESTING_LIMIT && Entries(num, es, depth + 1) && Blank(before)
    requires Stop(s) && s[0] == QUOTE && ParseString(s) == Fail(at)
    ensures var t := "{" + EntriesThen(es, before + s); Terminated(t) && ParseValue(num, t, depth) == Fail(at)
  {
    hide ParseValue, ParseMember, ParseMembers, ParseString, Skip, Entries, EntriesThen;
    SkipTo(before, s);
    EntryFails(num, es, before + s, depth, at);
  }

  /** The record fails where its first bad name does. */
  lemma EntryFails(num: Numerics, es: seq<Entry>, body: string, depth: nat, at: string)
    requires depth < NESTING_LIMIT && Entries(num, es, depth + 1) && Terminated(body) && (es == [] ==> Skip(body)[0] != '}')
    requires ParseString(Skip(body)) == Fail(at)
    ensures var t := "{" + EntriesThen(es, body); Terminated(t) && ParseValue(num, t, depth) == Fail(at)
  {
    hide ParseValue, ParseMember, ParseMembers, ParseString, Skip, Entries, EntriesThen;
    MemberFails(num, body, depth + 1);
    MembersCases(num, body, depth + 1);
    MembersFail(num, es, body, depth + 1, at);
    EntriesStart(num, es, body, depth + 1);
    RecordFails(num, EntriesThen(es, body), depth, at);
  }

  /** A name without a colon behind it. */
  lemma NoColonFails(num: Numerics, es: seq<Entry>, before: string, name: string, behind: string, s: string, depth: nat)
    requires depth < NESTING_LIMIT && Entries(num, es, depth + 1) && Blank(before) && Enclosed(name) && Blank(behind)
    requires Stop(s) && s[0] != ':'
    ensures var t := "{" + EntriesThen(es, before + NameText(name, behind + s)); Terminated(t) && ParseValue(num, t, depth) == Fail(s)
  {
    hide ParseValue, ParseMember, ParseMembers, ParseString, Skip, Entries, EntriesThen, NameText, Enclosed, Content;
    SkipTo(behind, s);
    NameIsRead(name, behind + s);
    QuoteFirst(name, behind + s);
    SkipBlank(before, NameText(name, behind + s));
    var body := before + NameText(name, behind + s);
    MemberFails(num, body, depth + 1);
    MembersCases(num, body, depth + 1);
    MembersFail(num, es, body, depth + 1, s);
    EntriesStart(num, es, body, depth + 1);
    RecordFails(num, EntriesThen(es, body), depth, s);
  }

  lemma QuoteFirst(name: string, rest: string)
    ensures NameText(name, rest)[0] == QUOTE
  {
  }

  /** A member with neither a comma nor the closing brace behind it. */
  lemma NoMemberCommaFails(num: Numerics, es: seq<Entry>, e: Entry, s: string, depth: nat)
    requires depth < NESTING_LIMIT && Entries(num, es, depth + 1) && EntryReadable(num, e, depth + 1)
    requires Stop(s) && s[0] != ',' && s[0] != '}' && !NumberChar((e.part.after + s)[0])
    ensures var t := "{" + EntriesThen(es, EntryText(e, s)); Terminated(t) && ParseValue(num, t, depth) == Fail(s)
  {
    hide ParseValue, ParseMember, ParseMembers, Skip, Entries, EntriesThen, EntryReadable, EntryText, NumberChar;
    var body := EntryText(e, s);
    EntryRead(num, e, s, depth + 1);
    MembersCases(num, body, depth + 1);
    MembersFail(num, es, body, depth + 1, s);
    EntriesStart(num, es, body, depth + 1);
    RecordFails(num, EntriesThen(es, body), depth, s);
  }

  /** Anything behind the value, when nothing may follow. */
  lemma TrailingFails(num: Numerics, before: string, v: Form, after: string, s: string)
    requires Blank(before) && Lax(num, v) && Nests(Denotes(num, v), 0) && Blank(after)
    requires Stop(s + "\0") && s != "" && !NumberChar((after + s)[0])
    ensures Parse(num, before + FormText(v, after + s), true) == Fail(s + "\0")
  {
    hide ParseValue, Skip, Denotes, Lax, NumberChar, FormText;
    PrefixAccepted(num, before, v, after + s);
    SkipTo(after, s + "\0");
    Assoc(after, s, "\0");
    StrictStops(num, before + FormText(v, after + s), s + "\0");
  }

  lemma StrictStops(num: Numerics, text: string, s: string)
    requires Stop(s) && |s| > 1
    requires Parse(num, text, false).Parsed? && Terminated(Parse(num, text, false).rest) && Skip(Parse(num, text, false).rest) == s
    ensures Parse(num, text, true) == Fail(s)
  {
    hide ParseValue, Skip;
  }

  // ----- the nesting limit in brackets

  function Brackets(n: nat): string
    requires n > 0
  {
    if n == 1 then "[]" else "[" + Brackets(n - 1) + "]"
  }

  /** 1000 brackets within each other are accepted, 1001 are not. */
  lemma NestedBrackets(num: Numerics, n: nat)
    requires n > 0
    ensures Parse(num, Brackets(n), true).Parsed? <==> n <= 1000
  {
    hide Parse, Denotes, FormText;
    if n <= 1000 {
      var v := BracketsForm(num, n, "");
      var w := Whole(false, "", v, "");
      assert Brackets(n) + "" == Brackets(n);
      EmptyConcat(FormText(v, ""));
      EmptyConcat("" + FormText(v, ""));
      WholeAccepted(num, w);
    } else {
      var at := TooDeep(num, n, "\0", 0);
      BracketsRefused(num, n);
    }
  }

  lemma {:induction false} BracketsForm(num: Numerics, n: nat, rest: string) returns (v: Form)
    requires n > 0
    ensures Lax(num, v) && Height(Denotes(num, v)) == n && FormText(v, rest) == Brackets(n) + rest
  {
    hide Lax, Denotes, FormText, Height;
    if n == 1 {
      v := List("", []);
      NoneNested(num, rest);
    } else {
      var u := BracketsForm(num, n - 1, "]" + rest);
      v := List("", [Part("", u, "")]);
      OneNested(num, u, "]" + rest);
      BracketsStep(n, rest);
      assert ("]" + rest)[1..] == rest;
    }
  }

  lemma NoneNested(num: Numerics, rest: string)
    ensures var v := List("", []);
      Lax(num, v) && Height(Denotes(num, v)) == 1 && FormText(v, rest) == "[]" + rest
  {
    EmptyConcat("]" + rest);
    assert "[" + ("]" + rest) == "[]" + rest;
  }

  lemma BracketsStep(n: nat, rest: string)
    requires n > 1
    ensures "[" + (Brackets(n - 1) + ("]" + rest)) == Brackets(n) + rest
  {
    Assoc("[" + Brackets(n - 1), "]", rest);
    Assoc("[", Brackets(n - 1), "]" + rest);
  }

  lemma OneItem(x: Json)
    ensures Height(Array([x])) == 1 + Height(x)
  {
    assert [x][1..] == [] && HeightOfItems([]) == 0;
  }

  lemma OneNested(num: Numerics, u: Form, end: string)
    requires Lax(num, u) && end != "" && end[0] == ']'
    ensures var v := List("", [Part("", u, "")]);
      && Lax(num, v) && Height(Denotes(num, v)) == 1 + Height(Denotes(num, u))
      && FormText(v, end[1..]) == "[" + FormText(u, end)
  {
    hide Lax, Denotes, FormText;
    var p := Part("", u, "");
    OneItem(Denotes(num, u));
    OnePart(num, p, []);
    assert [p] + [] == [p] && end == "]" + end[1..];
    ListIsLax(num, [p]);
    BracketText("", [p], end[1..]);
    EmptyConcat(end);
    EmptyConcat(FormText(u, end));
  }

  lemma {:induction false} TooDeep(num: Numerics, n: nat, rest: string, depth: nat) returns (at: string)
    requires n > 0 && Terminated(rest) && depth + n > NESTING_LIMIT
    ensures Stop(Brackets(n) + rest) && (Brackets(n) + rest)[0] == '['
    ensures ParseValue(num, Brackets(n) + rest, depth) == Fail(at)
  {
    hide ParseValue, FrameText, LaxFrame;
    var s := Brackets(n) + rest;
    TerminatedConcat(Brackets(n), rest);
    if depth >= NESTING_LIMIT {
      TooDeepFails(num, s, depth);
      at := s;
    } else {
      TerminatedConcat("]", rest);
      at := TooDeep(num, n - 1, "]" + rest, depth + 1);
      OneBracket(num, n, rest, depth);
      FaultPasses(num, InList([], ""), Brackets(n - 1) + ("]" + rest), depth, at);
    }
  }

  lemma OneBracket(num: Numerics, n: nat, rest: string, depth: nat)
    requires n > 1 && depth < NESTING_LIMIT
    ensures FrameText(InList([], ""), Brackets(n - 1) + ("]" + rest)) == Brackets(n) + rest
    ensures LaxFrame(num, InList([], ""), depth)
  {
    var s := Brackets(n - 1) + ("]" + rest);
    EmptyConcat(s);
    BracketsStep(n, rest);
  }

  lemma BracketsRefused(num: Numerics, n: nat)
    requires n > 0 && Terminated(Brackets(n) + "\0") && ParseValue(num, Brackets(n) + "\0", 0).Fail?
    ensures Parse(num, Brackets(n), true).Fail?
  {
    hide ParseValue;
    var s := Brackets(n) + "\0";
    assert s[0] == '[';
    assert SkipBom(s) == s && Skip(s) == s;
  }

  lemma NoFrames(num: Numerics)
    ensures LaxContext(num, [], 0) && forall s :: Inside([], s) == s && EntriesThen([], s) == s
    ensures Entries(num, [], 1)
  {
  }

  /** In "{a" the error is reported behind the "a". */
  lemma MissingName(num: Numerics)
    ensures Parse(num, "{a", true) == Fail("\0")
  {
    hide Parse, ParseValue, LaxContext, EntriesThen;
    NoFrames(num);
    var s := "a\0";
    assert s[1..] == "\0" && EntriesThen([], "" + s) == s && "{" + s == "{a\0";
    NoNameFails(num, [], "", s, 0);
    assert "{a" + "\0" == "{a\0" == "" + ("" + Inside([], "{a\0"));
    FaultPosition(num, false, "", [], "{a\0", "\0", "{a", true);
  }
}
