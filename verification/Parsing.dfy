// The parser as cJSON.c has it: a buffer whose offset and depth the parse functions move. Reading
// content[offset] is checked, so every method here also shows that no read leaves the buffer.
module Parsing {
  import opened Texts
  import opened Documents
  import opened Comparing
  import opened Unicode
  import opened StringCodec
  import opened Grammar

  /** The state of the buffer after a parse function: the rest of the text, or the error position. */
  ghost predicate Agrees<T>(ok: bool, v: T, left: string, r: Parsed<T>) {
    match r
    case Parsed(w, rest) => ok && v == w && left == rest
    case Fail(at) => !ok && left == at
  }

  function PrependAll<T>(xs: seq<T>, r: Parsed<seq<T>>): Parsed<seq<T>> {
    match r
    case Parsed(ys, rest) => Parsed(xs + ys, rest)
    case Fail(at) => r
  }

  class ParseBuffer {
    const content: string
    const num: Numerics
    var offset: nat
    var depth: nat

    ghost predicate Valid()
      reads this
    {
      Terminated(content) && offset <= |content|
    }

    /** The text from the offset on. */
    ghost function Left(): string
      reads this
      requires Valid()
    {
      content[offset..]
    }

    constructor (num: Numerics, text: string)
      ensures Valid() && this.num == num && content == text + "\0" && offset == 0 && depth == 0
    {
      this.num := num;
      content := text + "\0";
      offset := 0;
      depth := 0;
    }

    /** buffer_skip_whitespace. */
    method SkipWhitespace()
      requires Valid() && offset < |content|
      modifies this`offset
      ensures Valid() && offset < |content|
      ensures Left() == Skip(old(Left()))
    {
      ghost var s := Left();
      while offset < |content| && content[offset] <= ' '
        invariant Valid()
        invariant if offset < |content| then Skip(Left()) == Skip(s) else Skip(s) == content[|content| - 1..]
      {
        assert Left()[1..] == content[offset + 1..];
        offset := offset + 1;
      }
      if offset == |content| {
        offset := offset - 1;
      }
    }

    /** The copying loop of parse_number: at most 63 number characters. */
    method CopyNumber() returns (text: string)
      requires Valid()
      ensures text == NumberPrefix(Left(), 63)
    {
      hide NumberPrefix, Copied;
      ghost var s := Left();
      text := "";
      var i: nat := 0;
      CopyStarts(s);
      while i < 63 && offset + i < |content| && NumberChar(content[offset + i])
        invariant i <= 63 && offset + i <= |content| && Copied(s, i, text)
      {
        CopyStep(s, i, text);
        text := text + [content[offset + i]];
        i := i + 1;
      }
      CopyEnds(s, i, text);
    }

    /** parse_number. */
    method ParseNumberItem() returns (ok: bool, item: Json)
      requires Valid() && offset < |content|
      modifies this`offset
      ensures Valid()
      ensures Agrees(ok, item, Left(), ParseNumber(num, old(Left())))
    {
      var text := CopyNumber();
      var n := num.scan(text);
      item := Null;
      if n.length == 0 {
        return false, item;
      }
      assert Left()[n.length..] == content[offset + n.length..];
      offset := offset + n.length;
      return true, Number(ToInt(n.value), n.value);
    }

    /** The first pass over a string literal: its end, and the backslashes skipped. */
    method ScanLiteral(start: nat) returns (ok: bool, end: nat, skipped: nat)
      requires Valid() && start <= |content|
      ensures var r := Scan(content[start..]);
        && (ok <==> r.Some?)
        && (ok ==> end == start + r.value && skipped == Skipped(content[start..]))
    {
      ghost var t := content[start..];
      end, skipped := start, 0;
      while end < |content| && content[end] != QUOTE
        invariant start <= end <= |content|
        invariant Scanning(t, end - start, skipped)
      {
        ScanningStep(t, end - start, skipped);
        if content[end] == BACKSLASH {
          if end + 1 >= |content| {
            return false, end, skipped;
          }
          skipped := skipped + 1;
          end := end + 1;
        }
        end := end + 1;
      }
      ok := end < |content|;
      ScanningDone(t, end - start, skipped);
    }

    /**
     * The second pass over the literal between start and end, into an output of the size the first
     * pass asks for. That no write leaves the output is checked here for every text, whether or not
     * the literal turns out to be valid.
     */
    method DecodeLiteral(start: nat, end: nat, skipped: nat) returns (ok: bool, at: nat, out: string)
      requires Valid() && start <= end < |content|
      requires Scan(content[start..]) == Some(end - start) && skipped == Skipped(content[start..])
      ensures at <= |content|
      ensures Finished(Decode(content[start..], end - start), ok, content[at..], out)
    {
      hide Decode, Decoding, Scan, Skipped, UpToNul, MidAfter;
      ghost var t, n, k, mid, done := content[start..], end - start, 0, false, "";
      DecodingStarts(t);
      var size := (end - start + 1) - skipped;
      var output := new char[size + 1];
      var p, q, more := start, 0, true;
      while p < end
        invariant p == start + k && 0 <= q <= size && output[..q] == done
        invariant Decoding(t, n, skipped, k, mid, done)
        decreases end + 1 - p
      {
        ghost var length;
        DropDrop(content, start, k);
        more, p, q, length, mid, done := DecodeUnit(output, p, q, end, t, n, skipped, k, mid, done);
        if !more {
          return false, p, "";
        }
        k := k + length;
      }
      DecodingDone(t, n, skipped, k, mid, done);
      output[q] := '\0';
      assert output[..q] == done;
      return true, end, UpToNul(output[..q]);
    }

    /** One round of the second pass; its writes stay inside the output. */
    method DecodeUnit(output: array<char>, p: nat, q: nat, end: nat, ghost t: string, ghost n: nat, ghost skipped: nat,
                      ghost k: nat, ghost mid: bool, ghost done: string)
      returns (ok: bool, p': nat, q': nat, ghost length: nat, ghost mid': bool, ghost done': string)
      requires Decoding(t, n, skipped, k, mid, done)
      requires Valid() && p < end < |content| && content[p..] == t[k..] && end - p == n - k
      requires q <= output.Length && done == output[..q] && output.Length == n + 2 - skipped
      modifies output
      ensures ok ==> p' == p + length && length > 0 && q' <= n + 1 - skipped && output[..q'] == done'
      ensures ok ==> Decoding(t, n, skipped, k + length, mid', done')
      ensures !ok ==> p' == p && Decode(t, n) == Bad(t[k..])
    {
      hide Decode, Unit, MidAfter, Decoding, Utf8, ReadLiteral;
      ghost var unit := Unit(content[p..], end - p);
      UnitCases(content[p..], end - p);
      ok, p', q', length, mid', done' := false, p, q, 0, mid, done;
      if unit.None? {
        DecodingBad(t, n, skipped, k, mid, done);
      } else {
        DecodingStep(t, n, skipped, k, mid, done, unit.value.0, unit.value.1);
        length, mid', done' := unit.value.1, MidAfter(t[k..], unit.value.1, mid), done + unit.value.0;
      }
      if content[p] != BACKSLASH {
        output[q] := content[p];
        ok, p', q' := true, p + 1, q + 1;
      } else if content[p + 1] == 'u' {
        var taken, written := LiteralToUtf8(content[p..], end - p, output, q);
        ok, p', q' := taken > 0, p + taken, q + written;
      } else {
        var c := Unescaped(content[p + 1]);
        if c.Some? {
          output[q] := c.value;
          ok, p', q' := true, p + 2, q + 1;
        }
      }
    }

    /** parse_string. */
    method ParseStringLiteral() returns (ok: bool, out: string)
      requires Valid() && offset < |content|
      modifies this`offset
      ensures Valid()
      ensures Agrees(ok, out, Left(), ParseString(old(Left())))
    {
      hide Scan, Decode, Skipped, UpToNul;
      ghost var s := Left();
      var start := offset + 1;
      assert content[start..] == s[1..];
      out := "";
      if content[offset] != QUOTE {
        offset := start;
        return false, out;
      }
      var found, end, skipped := ScanLiteral(start);
      if !found {
        offset := start;
        return false, out;
      }
      var at;
      ok, at, out := DecodeLiteral(start, end, skipped);
      if ok {
        assert s[1..][end - start + 1..] == content[end + 1..];
        offset := end + 1;
      } else {
        offset := at;
      }
    }

    /** parse_value. */
    method ParseValueItem() returns (ok: bool, item: Json)
      requires Valid() && offset < |content|
      modifies this`offset, this`depth
      ensures Valid()
      ensures Agrees(ok, item, Left(), ParseValue(num, old(Left()), old(depth)))
      ensures ok ==> depth == old(depth)
      decreases |content| - offset, 2
    {
      hide ParseString, ParseNumber, ParseArray, ParseObject, IsDigit;
      item := Invalid;
      if |content| >= offset + 4 && content[offset..offset + 4] == "null" {
        Ahead(4);
        offset := offset + 4;
        return true, Null;
      }
      if |content| >= offset + 5 && content[offset..offset + 5] == "false" {
        Ahead(5);
        offset := offset + 5;
        return true, False;
      }
      if |content| >= offset + 4 && content[offset..offset + 4] == "true" {
        Ahead(4);
        offset := offset + 4;
        return true, True;
      }
      NoLiteral();
      if content[offset] == QUOTE {
        var text;
        ok, text := ParseStringLiteral();
        item := String(text);
      } else if content[offset] == '-' || IsDigit(content[offset]) {
        ok, item := ParseNumberItem();
      } else if content[offset] == '[' {
        ok, item := ParseArrayItem();
      } else if content[offset] == '{' {
        ok, item := ParseObjectItem();
      } else {
        ok := false;
      }
    }

    lemma Ahead(k: nat)
      requires Valid() && offset + k <= |content|
      ensures Left()[..k] == content[offset..offset + k] && Left()[k..] == content[offset + k..]
    {
    }

    lemma Inside()
      requires Valid()
      ensures Terminated(Left()) <==> offset < |content|
    {
    }

    lemma NoLiteral()
      requires Valid()
      requires |content| >= offset + 4 ==> content[offset..offset + 4] != "null" && content[offset..offset + 4] != "true"
      requires |content| >= offset + 5 ==> content[offset..offset + 5] != "false"
      ensures Grammar.Literal(Left()).None?
    {
      if |Left()| >= 4 { Ahead(4); }
      if |Left()| >= 5 { Ahead(5); }
    }

    /** Over the opening bracket, and the whitespace behind it. */
    method StepInside()
      requires Valid() && offset + 1 < |content|
      modifies this`offset
      ensures Valid() && old(offset) < offset < |content| && Left() == Skip(old(Left())[1..])
    {
      hide Skip;
      Ahead(1);
      offset := offset + 1;
      SkipWhitespace();
    }

    /** parse_array. */
    method ParseArrayItem() returns (ok: bool, item: Json)
      requires Valid() && offset < |content| && content[offset] == '['
      modifies this`offset, this`depth
      ensures Valid()
      ensures Agrees(ok, item, Left(), ParseArray(num, old(Left()), old(depth)))
      ensures ok ==> depth == old(depth)
      decreases |content| - offset, 1
    {
      hide ParseArray, ParseElements, Skip, Agrees, Advances;
      item := Invalid;
      ghost var s, d := Left(), depth;
      ArrayStarts(num, s, d);
      if depth >= NESTING_LIMIT {
        return false, item;
      }
      depth := depth + 1;
      StepInside();
      if content[offset] == ']' {
        Ahead(1);
        depth := depth - 1;
        offset := offset + 1;
        return true, Array([]);
      }
      ghost var t := Left();
      offset := offset - 1;
      var items;
      ok, items := ParseElementsLoop();
      ArrayEnds(num, s, t, d, ok, items, Left());
      item := Array(items);
      depth := if ok then depth - 1 else depth;
    }

    /** parse_array's loop over the elements, up to and including the closing bracket. */
    method ParseElementsLoop() returns (ok: bool, items: seq<Json>)
      requires Valid() && offset + 1 < |content|
      modifies this`offset, this`depth
      ensures Valid()
      ensures Agrees(ok, items, Left(), ParseElements(num, old(content[offset + 1..]), old(depth)))
      ensures ok ==> depth == old(depth)
      decreases |content| - (offset + 1), 4
    {
      hide ParseElements, ParseValue, Skip, Agrees, PrependAll, Advances;
      ghost var whole := ParseElements(num, content[offset + 1..], depth);
      items := [];
      PrependNone(whole);
      while true
        invariant Valid() && old(offset) <= offset && offset + 1 < |content| && depth == old(depth)
        invariant whole == PrependAll(items, ParseElements(num, content[offset + 1..], depth))
        decreases |content| - offset
      {
        offset := offset + 1;
        ghost var u := Left();
        var v;
        SkipWhitespace();
        ok, v := ParseValueItem();
        ElementsStep(num, items, u, old(depth), ok, v, Left(), whole);
        if !ok {
          return;
        }
        SkipWhitespace();
        Ahead(1);
        items := items + [v];
        if content[offset] != ',' {
          break;
        }
      }
      if content[offset] != ']' {
        return false, items;
      }
      offset := offset + 1;
    }

    /** parse_object. */
    method ParseObjectItem() returns (ok: bool, item: Json)
      requires Valid() && offset < |content| && content[offset] == '{'
      modifies this`offset, this`depth
      ensures Valid()
      ensures Agrees(ok, item, Left(), ParseObject(num, old(Left()), old(depth)))
      ensures ok ==> depth == old(depth)
      decreases |content| - offset, 1
    {
      hide ParseObject, ParseMembers, Skip, Agrees, Advances;
      item := Invalid;
      ghost var s, d := Left(), depth;
      ObjectStarts(num, s, d);
      if depth >= NESTING_LIMIT {
        return false, item;
      }
      depth := depth + 1;
      StepInside();
      if content[offset] == '}' {
        Ahead(1);
        depth := depth - 1;
        offset := offset + 1;
        return true, Object([]);
      }
      ghost var t := Left();
      offset := offset - 1;
      var members;
      ok, members := ParseMembersLoop();
      ObjectEnds(num, s, t, d, ok, members, Left());
      item := Object(members);
      depth := if ok then depth - 1 else depth;
    }

    /** parse_object's loop over the members, up to and including the closing brace. */
    method ParseMembersLoop() returns (ok: bool, members: seq<Member<Json>>)
      requires Valid() && offset + 1 < |content|
      modifies this`offset, this`depth
      ensures Valid()
      ensures Agrees(ok, members, Left(), ParseMembers(num, old(content[offset + 1..]), old(depth)))
      ensures ok ==> depth == old(depth)
      decreases |content| - (offset + 1), 4
    {
      hide ParseMembers, ParseMember, Skip, Agrees, PrependAll, Advances;
      ghost var whole := ParseMembers(num, content[offset + 1..], depth);
      members := [];
      PrependNone(whole);
      while true
        invariant Valid() && old(offset) <= offset && offset + 1 < |content| && depth == old(depth)
        invariant whole == PrependAll(members, ParseMembers(num, content[offset + 1..], depth))
        decreases |content| - offset
      {
        offset := offset + 1;
        ghost var u := Left();
        var m;
        ok, m := ParseMemberItem();
        MembersStep(num, members, u, old(depth), ok, m, Left(), whole);
        if !ok {
          return;
        }
        SkipWhitespace();
        Ahead(1);
        members := members + [m];
        if content[offset] != ',' {
          break;
        }
      }
      if content[offset] != '}' {
        return false, members;
      }
      offset := offset + 1;
    }

    /** The part of parse_object's loop that reads one name and its value. */
    method ParseMemberItem() returns (ok: bool, m: Member<Json>)
      requires Valid() && offset < |content|
      modifies this`offset, this`depth
      ensures Valid()
      ensures Agrees(ok, m, Left(), ParseMember(num, old(Left()), old(depth)))
      ensures ok ==> depth == old(depth)
      decreases |content| - offset, 3
    {
      hide ParseMember, Skip, ParseString, ParseValue, Agrees, Advances, Terminated;
      ghost var s := Left();
      Inside();
      m := Member("", Invalid);
      SkipWhitespace();
      var name;
      ok, name := ParseStringLiteral();
      ghost var after := Left();
      Inside();
      NameStep(num, s, depth, ok, name, after, m);
      if !ok {
        return;
      }
      SkipWhitespace();
      if content[offset] != ':' {
        return false, m;
      }
      Ahead(1);
      offset := offset + 1;
      SkipWhitespace();
      var v;
      ok, v := ParseValueItem();
      ValueStep(num, s, old(depth), name, after, ok, v, Left());
      m := Member(name, v);
    }

    /** cJSON_ParseWithOpts: the tree, or the error position. */
    method ParseWithOpts(requireNullTerminated: bool) returns (ok: bool, item: Json, end: nat)
      requires Valid() && offset == 0 && depth == 0 && |content| > 0
      modifies this`offset, this`depth
      ensures end < |content|
      ensures match Parse(num, content[..|content| - 1], requireNullTerminated)
        case Parsed(v, rest) => ok && item == v && content[end..] == rest
        case Fail(at) => !ok && content[end..] == if at == "" then "\0" else at
    {
      assert content[..|content| - 1] + "\0" == content;
      assert Left() == content;
      SkipByteOrderMark();
      SkipWhitespace();
      ok, item := ParseValueItem();
      if ok && requireNullTerminated {
        SkipWhitespace();
        ok := content[offset] == '\0';
      }
      end := if offset < |content| then offset else |content| - 1;
    }

    /** skip_utf8_bom, on a buffer that nothing was read from yet. */
    method SkipByteOrderMark()
      requires Valid() && offset == 0
      modifies this`offset
      ensures Valid() && offset < |content|
      ensures Left() == SkipBom(content)
    {
      if |content| > 4 && content[0] as int == 0xEF && content[1] as int == 0xBB && content[2] as int == 0xBF {
        offset := offset + 3;
      }
    }
  }

  // ----- the steps of the loops

  lemma PrependNone<T>(r: Parsed<seq<T>>)
    ensures PrependAll([], r) == r
  {
    if r.Parsed? { assert [] + r.value == r.value; }
  }

  lemma PrependCons<T>(xs: seq<T>, x: T, r: Parsed<seq<T>>)
    ensures PrependAll(xs, Cons(x, r)) == PrependAll(xs + [x], r)
  {
    if r.Parsed? { assert xs + ([x] + r.value) == xs + [x] + r.value; }
  }

  lemma ArrayStarts(num: Numerics, s: string, d: nat)
    requires Terminated(s) && s[0] == '['
    ensures |s| > 1
    ensures d >= NESTING_LIMIT ==> Agrees(false, Invalid, s, ParseArray(num, s, d))
    ensures d < NESTING_LIMIT && Skip(s[1..])[0] == ']' ==>
      |Skip(s[1..])| > 1 && Agrees(true, Array([]), Skip(s[1..])[1..], ParseArray(num, s, d))
  {
  }

  lemma ArrayEnds(num: Numerics, s: string, t: string, d: nat, ok: bool, items: seq<Json>, left: string)
    requires Terminated(s) && s[0] == '[' && d < NESTING_LIMIT && t == Skip(s[1..]) && t[0] != ']'
    requires Agrees(ok, items, left, ParseElements(num, t, d + 1))
    ensures Agrees(ok, Array(items), left, ParseArray(num, s, d))
  {
  }

  lemma ObjectStarts(num: Numerics, s: string, d: nat)
    requires Terminated(s) && s[0] == '{'
    ensures |s| > 1
    ensures d >= NESTING_LIMIT ==> Agrees(false, Invalid, s, ParseObject(num, s, d))
    ensures d < NESTING_LIMIT && Skip(s[1..])[0] == '}' ==>
      |Skip(s[1..])| > 1 && Agrees(true, Object([]), Skip(s[1..])[1..], ParseObject(num, s, d))
  {
  }

  lemma ObjectEnds(num: Numerics, s: string, t: string, d: nat, ok: bool, ms: seq<Member<Json>>, left: string)
    requires Terminated(s) && s[0] == '{' && d < NESTING_LIMIT && t == Skip(s[1..]) && t[0] != '}'
    requires Agrees(ok, ms, left, ParseMembers(num, t, d + 1))
    ensures Agrees(ok, Object(ms), left, ParseObject(num, s, d))
  {
  }

  lemma NameStep(num: Numerics, s: string, d: nat, ok: bool, name: string, left: string, m: Member<Json>)
    requires Terminated(s) && Agrees(ok, name, left, ParseString(Skip(s)))
    ensures !ok ==> Agrees(false, m, left, ParseMember(num, s, d))
    ensures ok ==> Terminated(left) && |left| < |s|
    ensures ok && Skip(left)[0] == ':' ==> |Skip(left)| > 1
    ensures ok && Skip(left)[0] != ':' ==> Agrees(false, m, Skip(left), ParseMember(num, s, d))
  {
    hide ParseValue, ParseString;
  }

  lemma ValueStep(num: Numerics, s: string, d: nat, name: string, after: string, ok: bool, v: Json, left: string)
    requires Terminated(s) && Agrees(true, name, after, ParseString(Skip(s))) && Terminated(after) && Skip(after)[0] == ':'
    requires |Skip(after)| > 1 && Agrees(ok, v, left, ParseValue(num, Skip(Skip(after)[1..]), d))
    ensures Agrees(ok, Member(name, v), left, ParseMember(num, s, d))
  {
  }

  /** Behind an element: a comma and more elements, the closing bracket, or an error. */
  ghost predicate BehindElement(num: Numerics, items: seq<Json>, left: string, d: nat, whole: Parsed<seq<Json>>)
    requires Terminated(left)
  {
    var u := Skip(left);
    if u[0] == ',' then |u| > 1 && whole == PrependAll(items, ParseElements(num, u[1..], d))
    else if u[0] == ']' then |u| > 1 && Agrees(true, items, u[1..], whole)
    else Agrees(false, items, u, whole)
  }

  ghost predicate BehindMember(num: Numerics, ms: seq<Member<Json>>, left: string, d: nat, whole: Parsed<seq<Member<Json>>>)
    requires Terminated(left)
  {
    var u := Skip(left);
    if u[0] == ',' then |u| > 1 && whole == PrependAll(ms, ParseMembers(num, u[1..], d))
    else if u[0] == '}' then |u| > 1 && Agrees(true, ms, u[1..], whole)
    else Agrees(false, ms, u, whole)
  }

  /** One round of parse_array's loop, and how it goes on. */
  lemma ElementsStep(num: Numerics, items: seq<Json>, u: string, d: nat, ok: bool, v: Json, left: string,
                     whole: Parsed<seq<Json>>)
    requires Terminated(u) && whole == PrependAll(items, ParseElements(num, u, d))
    requires Agrees(ok, v, left, ParseValue(num, Skip(u), d))
    ensures !ok ==> Agrees(false, items, left, whole)
    ensures ok ==> Terminated(left) && |left| < |u| && BehindElement(num, items + [v], left, d, whole)
  {
    hide ParseValue, ParseElements, Skip;
    ElementsCases(num, u, d);
    if ok && Skip(left)[0] == ',' { PrependCons(items, v, ParseElements(num, Skip(left)[1..], d)); }
  }

  /** One round of parse_object's loop, and how it goes on. */
  lemma MembersStep(num: Numerics, ms: seq<Member<Json>>, u: string, d: nat, ok: bool, m: Member<Json>, left: string,
                    whole: Parsed<seq<Member<Json>>>)
    requires Terminated(u) && whole == PrependAll(ms, ParseMembers(num, u, d))
    requires Agrees(ok, m, left, ParseMember(num, u, d))
    ensures !ok ==> Agrees(false, ms, left, whole)
    ensures ok ==> Terminated(left) && |left| < |u| && BehindMember(num, ms + [m], left, d, whole)
  {
    hide ParseMember, ParseMembers, Skip;
    MembersCases(num, u, d);
    if ok && Skip(left)[0] == ',' { PrependCons(ms, m, ParseMembers(num, Skip(left)[1..], d)); }
  }

  /** The copying loop of parse_number with i characters copied. */
  ghost predicate Copied(s: string, i: nat, text: string) {
    i <= 63 && i <= |s| && NumberPrefix(s, 63) == text + NumberPrefix(s[i..], 63 - i)
  }

  lemma CopyStarts(s: string)
    ensures Copied(s, 0, "")
  {
    assert s[0..] == s;
    assert "" + NumberPrefix(s, 63) == NumberPrefix(s, 63);
  }

  lemma PrefixStep(t: string, k: nat)
    requires t != "" && k > 0 && NumberChar(t[0])
    ensures NumberPrefix(t, k) == [t[0]] + NumberPrefix(t[1..], k - 1)
  {
  }

  lemma CopyStep(s: string, i: nat, text: string)
    requires Copied(s, i, text) && i < 63 && i < |s| && NumberChar(s[i])
    ensures Copied(s, i + 1, text + [s[i]])
  {
    hide NumberPrefix, NumberChar;
    var t := s[i..];
    assert t[0] == s[i] && t[1..] == s[i + 1..];
    PrefixStep(t, 63 - i);
    Assoc(text, [s[i]], NumberPrefix(s[i + 1..], 62 - i));
  }

  lemma CopyEnds(s: string, i: nat, text: string)
    requires Copied(s, i, text) && (i < 63 && i < |s| ==> !NumberChar(s[i]))
    ensures NumberPrefix(s, 63) == text
  {
    if i < |s| { assert s[i..][0] == s[i]; }
    assert text + "" == text;
  }

  /** The first pass at distance k, with its count so far. */
  ghost predicate Scanning(t: string, k: nat, skipped: nat) {
    k <= |t| && FirstPass(t) == Further(FirstPass(t[k..]), k, skipped)
  }

  lemma DropDrop(t: string, k: nat, j: nat)
    requires k + j <= |t|
    ensures t[k..][j..] == t[k + j..]
  {
  }

  lemma FurtherTwice(r: Option<(nat, nat)>, k: nat, m: nat, j: nat, l: nat)
    ensures Further(Further(r, j, l), k, m) == Further(r, k + j, m + l)
  {
  }

  lemma ScanningStep(t: string, k: nat, skipped: nat)
    requires Scanning(t, k, skipped) && k < |t| && t[k] != QUOTE
    ensures if t[k] != BACKSLASH then Scanning(t, k + 1, skipped)
            else if k + 1 >= |t| then Scan(t).None?
            else Scanning(t, k + 2, skipped + 1)
  {
    hide FirstPass, Scan;
    FirstPassStep(t[k..]);
    if t[k] != BACKSLASH {
      DropDrop(t, k, 1);
      FurtherTwice(FirstPass(t[k + 1..]), k, skipped, 1, 0);
    } else if k + 1 < |t| {
      DropDrop(t, k, 2);
      FurtherTwice(FirstPass(t[k + 2..]), k, skipped, 2, 1);
    } else {
      FirstPassIsScan(t);
    }
  }

  lemma ScanningDone(t: string, k: nat, skipped: nat)
    requires Scanning(t, k, skipped) && (k < |t| ==> t[k] == QUOTE)
    ensures Scan(t).Some? <==> k < |t|
    ensures k < |t| ==> Scan(t) == Some(k) && Skipped(t) == skipped
  {
    FirstPassIsScan(t);
    if k < |t| { assert t[k..][0] == t[k]; }
  }

  /** What the second pass hands on. */
  ghost predicate Finished(d: Decoded, ok: bool, left: string, out: string) {
    match d
    case Decoded(text) => ok && out == UpToNul(text)
    case Bad(bad) => !ok && left == bad
  }

  /**
   * The second pass at distance k of n, with done already written: what it has left to decode, and
   * the room that the count of the first pass leaves.
   */
  ghost predicate Decoding(t: string, n: nat, skipped: nat, k: nat, mid: bool, done: string) {
    && k <= n + 1 <= |t| && InStep(t[k..], n - k, mid)
    && |done| + skipped <= k + Pairs(t[k..], n - k, mid)
    && Decode(t, n) == Prepend(done, Decode(t[k..], n - k))
  }

  lemma DecodingStarts(t: string)
    requires Scan(t).Some?
    ensures Decoding(t, Scan(t).value, Skipped(t), 0, false, "")
    ensures Skipped(t) <= Scan(t).value
  {
    var n := Scan(t).value;
    PairsBelow(t, n, false);
    assert t[0..] == t;
    assert Prepend("", Decode(t, n)) == Decode(t, n) by {
      if Decode(t, n).Decoded? { assert "" + Decode(t, n).out == Decode(t, n).out; }
    }
  }

  lemma PrependTwice(a: string, b: string, d: Decoded)
    ensures Prepend(a, Prepend(b, d)) == Prepend(a + b, d)
  {
    if d.Decoded? { assert a + (b + d.out) == (a + b) + d.out; }
  }

  lemma DecodingBad(t: string, n: nat, skipped: nat, k: nat, mid: bool, done: string)
    requires Decoding(t, n, skipped, k, mid, done) && k < n && Unit(t[k..], n - k).None?
    ensures Decode(t, n) == Bad(t[k..])
  {
  }

  lemma UnitCases(t: string, n: int)
    requires 0 < n < |t|
    ensures Unit(t, n) ==
      if t[0] != BACKSLASH then Some(([t[0]], 1))
      else if t[1] == 'u' then
        if ReadLiteral(t, n).Some? then Some((Utf8(ReadLiteral(t, n).value.code), ReadLiteral(t, n).value.length)) else None
      else if Unescaped(t[1]).Some? then Some(([Unescaped(t[1]).value], 2)) else None
  {
  }

  lemma DecodeByUnit(u: string, n: int, bytes: string, k: nat)
    requires 0 < n < |u| && Unit(u, n) == Some((bytes, k))
    ensures Decode(u, n) == Prepend(bytes, Decode(u[k..], n - k))
  {
  }

  lemma StepRoom(t: string, n: nat, skipped: nat, k: nat, mid: bool, written: nat, bytes: string, length: nat)
    requires k < n && n + 1 <= |t| && InStep(t[k..], n - k, mid) && Unit(t[k..], n - k) == Some((bytes, length))
    requires written + skipped <= k + Pairs(t[k..], n - k, mid)
    ensures k + length <= n + 1 && length > 0 && InStep(t[k + length..], n - (k + length), MidAfter(t[k..], length, mid))
    ensures written + |bytes| + skipped <= k + length + Pairs(t[k + length..], n - (k + length), MidAfter(t[k..], length, mid))
    ensures written + |bytes| <= n + 1 - skipped
  {
    hide Unit, Pairs, InStep, MidAfter;
    UnitStep(t[k..], n - k, mid, bytes, length);
    DropDrop(t, k, length);
    PairsBelow(t[k + length..], n - (k + length), MidAfter(t[k..], length, mid));
  }

  lemma StepDecode(t: string, n: nat, k: nat, done: string, bytes: string, length: nat)
    requires k < n && n + 1 <= |t| && Unit(t[k..], n - k) == Some((bytes, length))
    requires Decode(t, n) == Prepend(done, Decode(t[k..], n - k))
    ensures k + length <= |t| && n - (k + length) < |t[k + length..]|
    ensures Decode(t, n) == Prepend(done + bytes, Decode(t[k + length..], n - (k + length)))
  {
    hide Decode, Unit, Prepend;
    DecodeByUnit(t[k..], n - k, bytes, length);
    DropDrop(t, k, length);
    PrependTwice(done, bytes, Decode(t[k + length..], n - (k + length)));
  }

  /** One unit, and the room there is for its bytes. */
  lemma DecodingStep(t: string, n: nat, skipped: nat, k: nat, mid: bool, done: string, bytes: string, length: nat)
    requires Decoding(t, n, skipped, k, mid, done) && k < n && Unit(t[k..], n - k) == Some((bytes, length))
    ensures k + length <= n + 1 && length > 0
    ensures Decoding(t, n, skipped, k + length, MidAfter(t[k..], length, mid), done + bytes)
    ensures |done| + |bytes| <= n + 1 - skipped
  {
    StepRoom(t, n, skipped, k, mid, |done|, bytes, length);
    StepDecode(t, n, k, done, bytes, length);
  }

  lemma DecodingDone(t: string, n: nat, skipped: nat, k: nat, mid: bool, done: string)
    requires Decoding(t, n, skipped, k, mid, done) && k >= n
    ensures Decode(t, n) == Decoded(done)
    ensures |done| <= n + 1 - skipped
  {
    PairsBelow(t[k..], n - k, mid);
    assert done + "" == done;
  }
}
