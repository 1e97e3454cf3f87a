// The printer as cJSON.c has it: a buffer that grows, or must not grow, and print functions that
// reserve room, write, and leave it to update_offset to find the terminator.
module Printing {
  import opened Documents
  import opened Comparing
  import opened StringCodec
  import opened Grammar

  /** Every text of the tree is a C string: it has no NUL inside. */
  predicate CStrings(num: Numerics, j: Json) {
    match j
    case Number(_, d) => '\0' !in NumberText(num, d)
    case String(s) => '\0' !in s
    case Array(items) => forall i :: 0 <= i < |items| ==> CStrings(num, items[i])
    case Object(ms) => forall i :: 0 <= i < |ms| ==> '\0' !in ms[i].key && CStrings(num, ms[i].value)
    case _ => true
  }

  /** No item has an invalid type, and every number fits the 26 bytes print_number has for it. */
  predicate Complete(num: Numerics, j: Json) {
    match j
    case Invalid => false
    case Number(_, d) => |NumberText(num, d)| <= 25
    case Array(items) => forall i :: 0 <= i < |items| ==> Complete(num, items[i])
    case Object(ms) => forall i :: 0 <= i < |ms| ==> Complete(num, ms[i].value)
    case _ => true
  }

  class PrintBuffer {
    const num: Numerics
    const noalloc: bool
    const format: bool
    var buffer: array<char>
    var offset: nat
    var depth: nat

    /** The offset is inside the buffer, unless that is empty. */
    predicate Valid()
      reads this, buffer
    {
      buffer.Length <= INT_MAX && (offset < buffer.Length || offset == buffer.Length == 0)
    }

    /** How long the buffer may get. */
    function Limit(): nat
      reads this, buffer
    {
      if noalloc then buffer.Length else INT_MAX
    }

    /** The buffer starts with this text. */
    ghost predicate Holds(s: string)
      reads this, buffer
    {
      |s| <= buffer.Length && buffer[..|s|] == s
    }

    constructor (num: Numerics, buffer: array<char>, noalloc: bool, format: bool)
      requires buffer.Length <= INT_MAX
      ensures Valid() && offset == 0 && depth == 0
      ensures this.num == num && this.noalloc == noalloc && this.format == format && this.buffer == buffer
    {
      this.num, this.noalloc, this.format := num, noalloc, format;
      this.buffer, offset, depth := buffer, 0, 0;
    }

    /** ensure: room for needed bytes and one more. A bigger buffer starts with what the old one held. */
    method Ensure(needed: nat) returns (ok: bool)
      requires Valid()
      modifies this`buffer
      ensures Valid() && Limit() == old(Limit())
      ensures ok <==> offset + needed + 1 <= Limit()
      ensures ok ==> offset + needed < buffer.Length
      ensures Holds(old(buffer[..]))
      ensures buffer == old(buffer) || (ok && !noalloc && fresh(buffer))
    {
      if needed > INT_MAX {
        return false;
      }
      if offset + needed + 1 <= buffer.Length {
        return true;
      }
      if noalloc {
        return false;
      }
      var size := (offset + needed + 1) * 2;
      if offset + needed + 1 > INT_MAX / 2 {
        if offset + needed + 1 > INT_MAX {
          return false;
        }
        size := INT_MAX;
      }
      var bigger := new char[size];
      forall i | 0 <= i < buffer.Length {
        bigger[i] := buffer[i];
      }
      buffer := bigger;
      return true;
    }

    /** update_offset: strlen from the offset on, which stops at the terminator last written. */
    method UpdateOffset(ghost end: nat)
      requires offset <= end < buffer.Length <= INT_MAX && buffer[end] == '\0'
      requires forall k :: offset <= k < end ==> buffer[k] != '\0'
      modifies this`offset
      ensures Valid() && offset == end
    {
      while buffer[offset] != '\0'
        invariant old(offset) <= offset <= end
        decreases end - offset
      {
        offset := offset + 1;
      }
    }

    /** ensure(needed), then the characters of s from the offset on, then the offset moves by advance. */
    method Emit(s: string, needed: nat, advance: nat) returns (ok: bool)
      requires Valid() && advance <= needed && |s| <= needed + 1
      modifies this`buffer, this`offset, buffer
      ensures Valid() && Limit() == old(Limit())
      ensures buffer == old(buffer) || (!noalloc && fresh(buffer))
      ensures ok <==> old(offset) + needed + 1 <= Limit()
      ensures ok ==> offset == old(offset) + advance && Holds(old(buffer[..offset]) + s)
    {
      ghost var was := buffer[..offset];
      ok := Ensure(needed);
      if !ok {
        return;
      }
      assert buffer[..offset] == was;
      var i := 0;
      var output := buffer;
      while i < |s|
        invariant 0 <= i <= |s|
        invariant output[..offset + i] == was + s[..i]
        modifies output
      {
        output[offset + i] := s[i];
        i := i + 1;
      }
      assert s[..i] == s;
      offset := offset + advance;
    }

    /** After a successful print function: behind was stand t and a terminator, and the offset is on the way there. */
    ghost predicate Wrote(was: string, t: string)
      reads this, buffer
    {
      Holds(was + t + "\0") && |was| <= offset <= |was| + |t|
    }

    /** What update_offset makes of it. */
    method Arrive(ghost was: string, ghost t: string)
      requires Valid() && Wrote(was, t) && '\0' !in t
      modifies this`offset
      ensures Valid() && Holds(was + t + "\0") && offset == |was| + |t| && buffer[..offset] == was + t
    {
      ghost var all := was + t + "\0";
      forall k | offset <= k < |was| + |t| ensures buffer[k] != '\0' {
        assert buffer[k] == all[k] == t[k - |was|];
      }
      assert buffer[|was| + |t|] == all[|was| + |t|];
      UpdateOffset(|was| + |t|);
      assert all[..offset] == was + t;
    }

    /** print_number. */
    method PrintNumber(d: real) returns (ok: bool)
      requires Valid()
      modifies this`buffer, this`offset, buffer
      ensures Valid() && Limit() == old(Limit())
      ensures buffer == old(buffer) || (!noalloc && fresh(buffer))
      ensures ok <==> |NumberText(num, d)| <= 25 && old(offset) + |NumberText(num, d)| + 2 <= Limit()
      ensures ok ==> Wrote(old(buffer[..offset]), NumberText(num, d))
    {
      ghost var was := buffer[..offset];
      var t := num.format15(d);
      var test := num.scan(t);
      if test.length == 0 || test.value != d {
        t := num.format17(d);
      }
      if |t| > 25 {
        return false;
      }
      ok := Emit(t + "\0", |t| + 1, |t|);
      assert was + (t + "\0") == was + t + "\0";
    }

    /** print_string_ptr. */
    method PrintString(input: string) returns (ok: bool)
      requires Valid()
      modifies this`buffer, buffer
      ensures Valid() && Limit() == old(Limit())
      ensures buffer == old(buffer) || (!noalloc && fresh(buffer))
      ensures ok <==> offset + |Quote(input)| + 2 <= Limit()
      ensures ok ==> Wrote(old(buffer[..offset]), Quote(input))
    {
      ghost var was := buffer[..offset];
      var length := EscapedLength(input);
      ok := Ensure(length + 3);
      if !ok {
        return;
      }
      assert buffer[..offset] == was;
      PutQuoted(buffer, offset, input, length);
    }

    /** print_value. */
    method PrintValue(item: Json) returns (ok: bool)
      requires Valid() && CStrings(num, item)
      modifies this, buffer
      ensures Valid() && Limit() == old(Limit())
      ensures buffer == old(buffer) || (!noalloc && fresh(buffer))
      ensures ok <==> Complete(num, item) && old(offset) + |Text(num, item, format, old(depth))| + 2 <= Limit()
      ensures ok ==> depth == old(depth) && Wrote(old(buffer[..offset]), Text(num, item, format, old(depth)))
      decreases item, 4
    {
      ghost var was := buffer[..offset];
      match item
      case Null =>
        ok := Emit("null\0", 5, 0);
        assert was + "null\0" == was + "null" + "\0";
      case False =>
        ok := Emit("false\0", 6, 0);
        assert was + "false\0" == was + "false" + "\0";
      case True =>
        ok := Emit("true\0", 5, 0);
        assert was + "true\0" == was + "true" + "\0";
      case Number(_, d) =>
        ok := PrintNumber(d);
      case String(s) =>
        ok := PrintString(s);
      case Array(items) =>
        ok := PrintArray(items);
      case Object(ms) =>
        ok := PrintObject(ms);
      case Invalid =>
        ok := false;
    }

    /** print_array. */
    method PrintArray(items: seq<Json>) returns (ok: bool)
      requires Valid() && CStrings(num, Array(items))
      modifies this, buffer
      ensures Valid() && Limit() == old(Limit())
      ensures buffer == old(buffer) || (!noalloc && fresh(buffer))
      ensures ok <==>
        Complete(num, Array(items)) && old(offset) + |Text(num, Array(items), format, old(depth))| + 2 <= Limit()
      ensures ok ==> depth == old(depth) && Wrote(old(buffer[..offset]), Text(num, Array(items), format, old(depth)))
      decreases items, 3
    {
      hide ItemsText, Text, CStrings;
      ghost var was, d := buffer[..offset], depth;
      ghost var goal := was + "[" + ItemsText(num, items, format, d + 1);
      ArrayGoal(num, items, format, d, was);
      ok := Emit("[", 1, 1);
      if !ok {
        return;
      }
      depth := depth + 1;
      ok := PrintElements(items, goal);
      if !ok {
        return;
      }
      ok := Emit("]\0", 2, 0);
      depth := depth - 1;
      assert goal + "]\0" == goal + "]" + "\0";
    }

    /** print_array's loop; goal is what the buffer holds at its end. */
    method PrintElements(items: seq<Json>, ghost goal: string) returns (ok: bool)
      requires Valid() && CStrings(num, Array(items))
      requires buffer[..offset] + ItemsText(num, items, format, depth) == goal
      modifies this, buffer
      ensures Valid() && Limit() == old(Limit())
      ensures buffer == old(buffer) || (!noalloc && fresh(buffer))
      ensures ok ==> Complete(num, Array(items)) && depth == old(depth) && buffer[..offset] == goal
      ensures !ok ==> !Complete(num, Array(items)) || |goal| + 3 > Limit()
      decreases items, 2
    {
      hide ItemsText;
      var i := 0;
      assert items[0..] == items;
      while i < |items|
        invariant 0 <= i <= |items| && Valid() && Limit() == old(Limit()) && depth == old(depth)
        invariant buffer == old(buffer) || (!noalloc && fresh(buffer))
        invariant buffer[..offset] + ItemsText(num, items[i..], format, depth) == goal
        invariant forall k :: 0 <= k < i ==> Complete(num, items[k])
      {
        ok := PrintElement(items, i, goal);
        if !ok {
          return;
        }
        i := i + 1;
      }
      assert items[i..] == [];
      NoItems(num, format, depth, buffer[..offset]);
      ok := true;
    }

    /** The body of print_array's loop. */
    method PrintElement(items: seq<Json>, i: nat, ghost goal: string) returns (ok: bool)
      requires Valid() && i < |items| && CStrings(num, items[i])
      requires buffer[..offset] + ItemsText(num, items[i..], format, depth) == goal
      modifies this, buffer
      ensures Valid() && Limit() == old(Limit())
      ensures buffer == old(buffer) || (!noalloc && fresh(buffer))
      ensures ok ==> Complete(num, items[i]) && depth == old(depth)
      ensures ok ==> buffer[..offset] + ItemsText(num, items[i + 1..], format, depth) == goal
      ensures !ok ==> !Complete(num, items[i]) || |goal| + 3 > Limit()
      decreases items, 1
    {
      hide ItemsText, Text, Complete, CStrings;
      ghost var was, t, more := buffer[..offset], Text(num, items[i], format, depth), ItemsText(num, items[i + 1..], format, depth);
      ItemsStep(num, items, i, format, depth, was);
      TextHasNoNul(num, items[i], format, depth);
      ok := PrintValue(items[i]);
      if !ok {
        return;
      }
      if i + 1 < |items| {
        ok := Separate(was, t, if format then ", " else ",");
      } else {
        Arrive(was, t);
      }
    }

    /** update_offset, and the separator behind the value just printed, with a terminator of its own. */
    method Separate(ghost was: string, ghost t: string, separator: string) returns (ok: bool)
      requires Valid() && Wrote(was, t) && '\0' !in t
      modifies this`buffer, this`offset, buffer
      ensures Valid() && Limit() == old(Limit())
      ensures buffer == old(buffer) || (!noalloc && fresh(buffer))
      ensures ok ==> buffer[..offset] == was + t + separator
      ensures !ok ==> |was| + |t| + |separator| + 2 > Limit()
    {
      Arrive(was, t);
      ok := Emit(separator + "\0", |separator| + 1, |separator|);
      if ok {
        TakePiece(buffer[..], was + t, separator);
      }
    }

    /** print_object. */
    method PrintObject(ms: seq<Member<Json>>) returns (ok: bool)
      requires Valid() && CStrings(num, Object(ms))
      modifies this, buffer
      ensures Valid() && Limit() == old(Limit())
      ensures buffer == old(buffer) || (!noalloc && fresh(buffer))
      ensures ok <==>
        Complete(num, Object(ms)) && old(offset) + |Text(num, Object(ms), format, old(depth))| + 2 <= Limit()
      ensures ok ==> depth == old(depth) && Wrote(old(buffer[..offset]), Text(num, Object(ms), format, old(depth)))
      decreases ms, 3
    {
      hide MembersText, Text, CStrings, Tabs;
      ghost var was, d := buffer[..offset], depth;
      ghost var goal := was + ("{" + Newline(format)) + MembersText(num, ms, format, d + 1);
      ObjectGoal(num, ms, format, d, was);
      var length := if format then 2 else 1;
      ok := Emit("{" + Newline(format), length + 1, length);
      if !ok {
        return;
      }
      depth := depth + 1;
      ok := PrintMembers(ms, goal);
      if !ok {
        return;
      }
      ok := Emit(Indent(format, depth - 1) + "}\0", if format then depth + 1 else 2, 0);
      depth := depth - 1;
      CloseRegroup(goal, Indent(format, d));
    }

    /** print_object's loop; goal is what the buffer holds at its end. */
    method PrintMembers(ms: seq<Member<Json>>, ghost goal: string) returns (ok: bool)
      requires Valid() && CStrings(num, Object(ms))
      requires buffer[..offset] + MembersText(num, ms, format, depth) == goal
      modifies this, buffer
      ensures Valid() && Limit() == old(Limit())
      ensures buffer == old(buffer) || (!noalloc && fresh(buffer))
      ensures ok ==> Complete(num, Object(ms)) && depth == old(depth) && buffer[..offset] == goal
      ensures !ok ==> !Complete(num, Object(ms)) || |goal| + 3 > Limit()
      decreases ms, 2
    {
      hide MembersText;
      var i := 0;
      assert ms[0..] == ms;
      while i < |ms|
        invariant 0 <= i <= |ms| && Valid() && Limit() == old(Limit()) && depth == old(depth)
        invariant buffer == old(buffer) || (!noalloc && fresh(buffer))
        invariant buffer[..offset] + MembersText(num, ms[i..], format, depth) == goal
        invariant forall k :: 0 <= k < i ==> Complete(num, ms[k].value)
      {
        ok := PrintMember(ms, i, goal);
        if !ok {
          return;
        }
        i := i + 1;
      }
      assert ms[i..] == [];
      NoMembers(num, format, depth, buffer[..offset]);
      ok := true;
    }

    /** The body of print_object's loop. */
    method PrintMember(ms: seq<Member<Json>>, i: nat, ghost goal: string) returns (ok: bool)
      requires Valid() && i < |ms| && '\0' !in ms[i].key && CStrings(num, ms[i].value)
      requires buffer[..offset] + MembersText(num, ms[i..], format, depth) == goal
      modifies this, buffer
      ensures Valid() && Limit() == old(Limit())
      ensures buffer == old(buffer) || (!noalloc && fresh(buffer))
      ensures ok ==> Complete(num, ms[i].value) && depth == old(depth)
      ensures ok ==> buffer[..offset] + MembersText(num, ms[i + 1..], format, depth) == goal
      ensures !ok ==> !Complete(num, ms[i].value) || |goal| + 3 > Limit()
      decreases ms, 1
    {
      hide MembersText, Text, Complete, CStrings, Quote, Tabs, KeyText;
      ghost var was, t := buffer[..offset], Text(num, ms[i].value, format, depth);
      ghost var name := KeyText(ms[i].key, format, depth);
      MembersStep(num, ms, i, format, depth, was);
      ok := PrintKey(ms[i].key);
      if !ok {
        return;
      }
      ok := PrintValue(ms[i].value);
      if !ok {
        return;
      }
      TextHasNoNul(num, ms[i].value, format, depth);
      ok := Separate(was + name, t, Comma(|ms| - i) + Newline(format));
    }

    /** The part of print_object's loop in front of the value. */
    method PrintKey(key: string) returns (ok: bool)
      requires Valid()
      modifies this, buffer
      ensures Valid() && Limit() == old(Limit()) && depth == old(depth)
      ensures buffer == old(buffer) || (!noalloc && fresh(buffer))
      ensures ok ==> buffer[..offset] == old(buffer[..offset]) + KeyText(key, format, depth)
      ensures !ok ==> old(offset) + |KeyText(key, format, depth)| + 2 > Limit()
    {
      hide Quote, Tabs;
      ghost var was := buffer[..offset];
      if format {
        ok := Emit(Tabs(depth), depth, depth);
        if !ok {
          return;
        }
      }
      assert buffer[..offset] == was + Indent(format, depth);
      ok := PrintString(key);
      if !ok {
        return;
      }
      QuoteHasNoNul(key);
      Arrive(was + Indent(format, depth), Quote(key));
      var length := if format then 2 else 1;
      ok := Emit(Colon(format), length, length);
      if ok {
        KeyRegroup(was, Indent(format, depth), Quote(key), Colon(format));
      }
    }
  }

  /** The counting loop of print_string_ptr. */
  method EscapedLength(input: string) returns (length: nat)
    ensures length == |EscapeText(input)|
  {
    var i, escapes := 0, 0;
    assert input[0..] == input;
    while i < |input|
      invariant 0 <= i <= |input| && 0 <= escapes
      invariant |EscapeText(input)| == i + escapes + |EscapeText(input[i..])|
    {
      assert input[i..][1..] == input[i + 1..];
      if ShortEscape(input[i]).Some? {
        escapes := escapes + 1;
      } else if input[i] < ' ' {
        escapes := escapes + 5;
      }
      i := i + 1;
    }
    length := |input| + escapes;
  }

  lemma {:induction false} EscapeTextLength(s: string)
    ensures |s| <= |EscapeText(s)|
  {
    if s != "" { EscapeTextLength(s[1..]); }
  }

  lemma {:induction false} NothingToEscape(s: string)
    requires |EscapeText(s)| == |s|
    ensures EscapeText(s) == s
  {
    if s != "" {
      EscapeTextLength(s[1..]);
      assert |EscapeChar(s[0])| == 1;
      NothingToEscape(s[1..]);
      assert s == [s[0]] + s[1..];
    }
  }

  /** The copying loop of print_string_ptr. */
  method PutEscaped(output: array<char>, at: nat, input: string)
    requires at + |EscapeText(input)| < output.Length
    modifies output
    ensures output[..at + |EscapeText(input)|] == old(output[..at]) + EscapeText(input)
  {
    ghost var goal := output[..at] + EscapeText(input);
    var i, pointer := 0, at;
    assert input[0..] == input;
    while i < |input|
      invariant 0 <= i <= |input| && 0 <= pointer
      invariant pointer + |EscapeText(input[i..])| == at + |EscapeText(input)|
      invariant output[..pointer] + EscapeText(input[i..]) == goal
    {
      ghost var before := output[..pointer];
      assert input[i..][1..] == input[i + 1..];
      assert before + (EscapeChar(input[i]) + EscapeText(input[i + 1..])) == before + EscapeChar(input[i]) + EscapeText(input[i + 1..]);
      pointer := PutChar(output, pointer, input[i]);
      i := i + 1;
    }
  }

  /** The writes of print_string_ptr. */
  method PutQuoted(output: array<char>, at: nat, input: string, length: nat)
    requires length == |EscapeText(input)| && at + length + 3 <= output.Length
    modifies output
    ensures output[..at + length + 3] == old(output[..at]) + Quote(input) + "\0"
  {
    ghost var was, e := output[..at], EscapeText(input);
    output[at] := QUOTE;
    assert output[..at + 1] == was + [QUOTE];
    if length == |input| {
      NothingToEscape(input);
      forall k | 0 <= k < |input| {
        output[at + 1 + k] := input[k];
      }
    } else {
      PutEscaped(output, at + 1, input);
    }
    assert output[..at + 1 + length] == was + [QUOTE] + e;
    output[at + 1 + length] := QUOTE;
    output[at + 2 + length] := '\0';
    assert output[..at + 3 + length] == was + [QUOTE] + e + [QUOTE] + "\0";
    QuoteRegroup(was, e);
  }

  lemma QuoteRegroup(was: string, e: string)
    ensures was + [QUOTE] + e + [QUOTE] + "\0" == was + ([QUOTE] + e + [QUOTE]) + "\0"
  {
  }

  /** One character; a control character is printed by sprintf, which adds a terminator of its own. */
  method PutChar(output: array<char>, at: nat, c: char) returns (next: nat)
    requires at + |EscapeChar(c)| < output.Length
    modifies output
    ensures next == at + |EscapeChar(c)| && output[..next] == old(output[..at]) + EscapeChar(c)
  {
    if c >= ' ' && c != QUOTE && c != BACKSLASH {
      output[at] := c;
      return at + 1;
    }
    output[at] := BACKSLASH;
    next := at + 1;
    if c == BACKSLASH {
      output[next] := BACKSLASH;
    } else if c == QUOTE {
      output[next] := QUOTE;
    } else if c == BS {
      output[next] := 'b';
    } else if c == FF {
      output[next] := 'f';
    } else if c == '\n' {
      output[next] := 'n';
    } else if c == '\r' {
      output[next] := 'r';
    } else if c == '\t' {
      output[next] := 't';
    } else {
      output[next], output[next + 1], output[next + 2] := 'u', '0', '0';
      output[next + 3], output[next + 4], output[next + 5] := HexChar(c as int / 16), HexChar(c as int % 16), '\0';
      next := next + 4;
    }
    next := next + 1;
  }

  // ----- the three ways to print

  /** How many bytes a buffer must have for a tree: its text, the terminator and one more. */
  function Needed(num: Numerics, item: Json, fmt: bool): nat { |Text(num, item, fmt, 0)| + 2 }

  /** A C string in an array. */
  ghost predicate HoldsText(a: array<char>, t: string)
    reads a
  {
    |t| < a.Length && a[..|t|] == t && a[|t|] == '\0'
  }

  lemma HoldsTextOf(a: array<char>, t: string)
    requires |t + "\0"| <= a.Length && a[..|t + "\0"|] == t + "\0"
    ensures HoldsText(a, t)
  {
    assert a[..|t|] == a[..|t + "\0"|][..|t|];
    assert a[|t|] == (t + "\0")[|t|];
  }

  /** print: into a buffer of 256 bytes that grows, then into one of just the right size. */
  method Print(num: Numerics, item: Json, format: bool) returns (printed: Option<array<char>>)
    requires CStrings(num, item)
    ensures printed.Some? <==> Complete(num, item) && Needed(num, item, format) <= INT_MAX
    ensures printed.Some? ==> printed.value[..] == Text(num, item, format, 0) + "\0"
  {
    hide Text, CStrings, Complete;
    ghost var t := Text(num, item, format, 0);
    var buffer := new char[256];
    var p := new PrintBuffer(num, buffer, false, format);
    var ok := p.PrintValue(item);
    if !ok {
      return None;
    }
    assert "" + t == t;
    TextHasNoNul(num, item, format, 0);
    p.Arrive("", t);
    var exact := Shrink(p.buffer, p.offset + 1);
    return Some(exact);
  }

  /** realloc to a smaller size. */
  method Shrink(buffer: array<char>, size: nat) returns (exact: array<char>)
    requires size <= buffer.Length
    ensures exact[..] == buffer[..size]
  {
    exact := new char[size];
    forall i | 0 <= i < size {
      exact[i] := buffer[i];
    }
  }

  /** cJSON_PrintBuffered: the caller guesses the size, and gets the working buffer itself. */
  method PrintBuffered(num: Numerics, item: Json, prebuffer: int, format: bool) returns (printed: Option<array<char>>)
    requires CStrings(num, item) && prebuffer <= INT_MAX
    ensures printed.Some? <==> prebuffer >= 0 && Complete(num, item) && Needed(num, item, format) <= INT_MAX
    ensures printed.Some? ==> HoldsText(printed.value, Text(num, item, format, 0))
  {
    hide Text, CStrings, Complete;
    if prebuffer < 0 {
      return None;
    }
    var buffer := new char[prebuffer];
    var p := new PrintBuffer(num, buffer, false, format);
    var ok := p.PrintValue(item);
    if !ok {
      return None;
    }
    assert "" + Text(num, item, format, 0) == Text(num, item, format, 0);
    HoldsTextOf(p.buffer, Text(num, item, format, 0));
    return Some(p.buffer);
  }

  /**
   * cJSON_PrintPreallocated: the caller's buffer never grows. One byte more than the text and its
   * terminator is enough, and less is not.
   */
  method PrintPreallocated(num: Numerics, item: Json, buffer: array<char>, format: bool) returns (ok: bool)
    requires CStrings(num, item) && buffer.Length <= INT_MAX
    modifies buffer
    ensures ok <==> Complete(num, item) && Needed(num, item, format) <= buffer.Length
    ensures ok ==> HoldsText(buffer, Text(num, item, format, 0))
  {
    hide Text, CStrings, Complete;
    var p := new PrintBuffer(num, buffer, true, format);
    ok := p.PrintValue(item);
    assert "" + Text(num, item, format, 0) == Text(num, item, format, 0);
    if ok {
      HoldsTextOf(buffer, Text(num, item, format, 0));
    }
  }

  /** The trees of the round trip are among those that print. */
  lemma {:induction false} PrintableIsComplete(num: Numerics, j: Json)
    requires Printable(num, j)
    ensures CStrings(num, j) && Complete(num, j)
  {
    match j
    case Number(_, d) => NumberTextReadsBack(num, d);
    case Array(items) =>
      forall i | 0 <= i < |items| ensures CStrings(num, items[i]) && Complete(num, items[i]) {
        PrintableIsComplete(num, items[i]);
      }
    case Object(ms) =>
      forall i | 0 <= i < |ms| ensures CStrings(num, ms[i].value) && Complete(num, ms[i].value) {
        PrintableIsComplete(num, ms[i].value);
      }
    case _ =>
  }

  // ----- the text and its pieces

  lemma {:induction false} EscapeHasNoNul(s: string)
    ensures '\0' !in EscapeText(s)
  {
    if s != "" { EscapeHasNoNul(s[1..]); }
  }

  lemma QuoteHasNoNul(s: string)
    ensures '\0' !in Quote(s)
  {
    EscapeHasNoNul(s);
  }

  lemma {:induction false} TextHasNoNul(num: Numerics, j: Json, fmt: bool, depth: nat)
    requires CStrings(num, j)
    ensures '\0' !in Text(num, j, fmt, depth)
    decreases j, 1
  {
    hide ItemsText, MembersText, Quote, NumberText;
    match j
    case String(s) => QuoteHasNoNul(s);
    case Array(items) => ItemsHaveNoNul(num, items, fmt, depth + 1);
    case Object(ms) => MembersHaveNoNul(num, ms, fmt, depth + 1);
    case _ =>
  }

  lemma {:induction false} ItemsHaveNoNul(num: Numerics, items: seq<Json>, fmt: bool, depth: nat)
    requires forall i :: 0 <= i < |items| ==> CStrings(num, items[i])
    ensures '\0' !in ItemsText(num, items, fmt, depth)
    decreases items, 0
  {
    if items != [] {
      TextHasNoNul(num, items[0], fmt, depth);
      ItemsHaveNoNul(num, items[1..], fmt, depth);
    }
  }

  lemma {:induction false} MembersHaveNoNul(num: Numerics, ms: seq<Member<Json>>, fmt: bool, depth: nat)
    requires forall i :: 0 <= i < |ms| ==> '\0' !in ms[i].key && CStrings(num, ms[i].value)
    ensures '\0' !in MembersText(num, ms, fmt, depth)
    decreases ms, 0
  {
    hide Text, MemberText;
    if ms != [] {
      TextHasNoNul(num, ms[0].value, fmt, depth);
      MembersHaveNoNul(num, ms[1..], fmt, depth);
      MemberHasNoNul(num, ms[0], Comma(|ms|), fmt, depth);
    }
  }

  lemma MemberHasNoNul(num: Numerics, m: Member<Json>, comma: string, fmt: bool, depth: nat)
    requires '\0' !in Text(num, m.value, fmt, depth) && '\0' !in comma
    ensures '\0' !in MemberText(num, m, comma, fmt, depth)
  {
    hide Text, Quote, Tabs;
    QuoteHasNoNul(m.key);
  }

  lemma ArrayGoal(num: Numerics, items: seq<Json>, fmt: bool, d: nat, was: string)
    ensures was + "[" + ItemsText(num, items, fmt, d + 1) + "]" == was + Text(num, Array(items), fmt, d)
  {
    var t := ItemsText(num, items, fmt, d + 1);
    assert was + "[" + t + "]" == was + ("[" + t + "]");
  }

  lemma ObjectGoal(num: Numerics, ms: seq<Member<Json>>, fmt: bool, d: nat, was: string)
    ensures was + ("{" + Newline(fmt)) + MembersText(num, ms, fmt, d + 1) + Indent(fmt, d) + "}" ==
      was + Text(num, Object(ms), fmt, d)
  {
    ObjectRegroup(was, "{" + Newline(fmt), MembersText(num, ms, fmt, d + 1), Indent(fmt, d));
  }

  lemma ObjectRegroup(was: string, open: string, t: string, ind: string)
    ensures was + open + t + ind + "}" == was + (open + t + ind + "}")
  {
  }

  lemma ItemsStep(num: Numerics, items: seq<Json>, i: nat, fmt: bool, d: nat, was: string)
    requires i < |items|
    ensures was + ItemsText(num, items[i..], fmt, d) ==
      was + Text(num, items[i], fmt, d) + Separator(|items| - i, fmt) + ItemsText(num, items[i + 1..], fmt, d)
  {
    var t, sep, more := Text(num, items[i], fmt, d), Separator(|items| - i, fmt), ItemsText(num, items[i + 1..], fmt, d);
    assert items[i..][0] == items[i] && items[i..][1..] == items[i + 1..];
    assert was + (t + sep + more) == was + t + sep + more;
  }

  /** What print_object prints in front of a value. */
  function KeyText(key: string, fmt: bool, d: nat): string { Indent(fmt, d) + Quote(key) + Colon(fmt) }

  lemma KeyRegroup(was: string, ind: string, q: string, colon: string)
    ensures was + ind + q + colon == was + (ind + q + colon)
  {
  }

  lemma CloseRegroup(goal: string, ind: string)
    ensures goal + (ind + "}\0") == goal + ind + "}" + "\0"
  {
  }

  lemma NoItems(num: Numerics, fmt: bool, d: nat, was: string)
    ensures was + ItemsText(num, [], fmt, d) == was
  {
  }

  lemma NoMembers(num: Numerics, fmt: bool, d: nat, was: string)
    ensures was + MembersText(num, [], fmt, d) == was
  {
  }

  lemma MembersStep(num: Numerics, ms: seq<Member<Json>>, i: nat, fmt: bool, d: nat, was: string)
    requires i < |ms|
    ensures was + MembersText(num, ms[i..], fmt, d) ==
      was + KeyText(ms[i].key, fmt, d) + Text(num, ms[i].value, fmt, d)
      + (Comma(|ms| - i) + Newline(fmt)) + MembersText(num, ms[i + 1..], fmt, d)
  {
    assert ms[i..][0] == ms[i] && ms[i..][1..] == ms[i + 1..];
    MemberRegroup(was, KeyText(ms[i].key, fmt, d), Text(num, ms[i].value, fmt, d), Comma(|ms| - i),
                  Newline(fmt), MembersText(num, ms[i + 1..], fmt, d));
  }

  lemma MemberRegroup(was: string, key: string, t: string, comma: string, nl: string, more: string)
    ensures was + (key + t + comma + nl + more) == was + key + t + (comma + nl) + more
  {
  }

  lemma TakePiece(b: string, was: string, piece: string)
    requires |was + (piece + "\0")| <= |b| && b[..|was + (piece + "\0")|] == was + (piece + "\0")
    ensures b[..|was| + |piece|] == was + piece
  {
    assert b[..|was| + |piece|] == b[..|was + (piece + "\0")|][..|was| + |piece|];
  }
}
