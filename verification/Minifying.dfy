// cJSON_Minify: what it keeps of a text, in place, and that the parser sees no difference.
module Minifying {
  import opened Texts
  import opened Documents
  import opened StringCodec
  import opened Grammar
  import opened RoundTripping

  /** The whitespace that is dropped; the parser skips every character up to ' '. */
  predicate Dropped(c: char) { c == ' ' || c == '\t' || c == '\r' || c == '\n' }

  /** The length of a comment to the end of the line. */
  function LineEnd(s: string): (n: nat)
    ensures n <= |s| && (s != "" && s[0] != '\n' ==> n > 0)
  {
    if s == "" || s[0] == '\n' then 0 else 1 + LineEnd(s[1..])
  }

  /** Where the first "*" "/" is. */
  function BlockEnd(s: string): (r: Option<nat>)
    ensures r.Some? ==> r.value + 2 <= |s| && s[r.value] == '*' && s[r.value + 1] == '/'
  {
    if |s| < 2 then None
    else if s[0] == '*' && s[1] == '/' then Some(0)
    else Beyond(1, BlockEnd(s[1..]))
  }

  /** What is kept of a text. An open string or comment has no end for the loops to stop at; here nothing is kept of it. */
  function Minify(s: string): string
    decreases |s|
  {
    if s == "" then ""
    else if Dropped(s[0]) then Minify(s[1..])
    else if s[0] == '/' && |s| > 1 && s[1] == '/' then Minify(s[LineEnd(s)..])
    else if s[0] == '/' && |s| > 1 && s[1] == '*' then
      var n := BlockEnd(s);
      if n.None? then "" else Minify(s[n.value + 2..])
    else if s[0] == QUOTE then
      var n := Scan(s[1..]);
      if n.None? then "" else s[..n.value + 2] + Minify(s[n.value + 2..])
    else [s[0]] + Minify(s[1..])
  }

  /** Every string and every block comment ends, so the loops stay inside the text. */
  predicate Ends(s: string)
    decreases |s|
  {
    if s == "" then true
    else if Dropped(s[0]) then Ends(s[1..])
    else if s[0] == '/' && |s| > 1 && s[1] == '/' then Ends(s[LineEnd(s)..])
    else if s[0] == '/' && |s| > 1 && s[1] == '*' then BlockEnd(s).Some? && Ends(s[BlockEnd(s).value + 2..])
    else if s[0] == QUOTE then Scan(s[1..]).Some? && Ends(s[Scan(s[1..]).value + 2..])
    else Ends(s[1..])
  }

  /** The length of a block comment; without an end, the loop steps two characters past the terminator's place. */
  function CommentEnd(s: string): (n: nat)
    ensures n > 0
  {
    if BlockEnd(s).Some? then BlockEnd(s).value + 2 else |s| + 2
  }

  /** The length of the rest of a string literal; without a quote, the terminator is copied in its place. */
  function StringEnd(s: string): (n: nat)
    ensures n > 0
  {
    if Scan(s).Some? then Scan(s).value + 1 else |s| + 1
  }

  /** Where the loop reads when it has come to the end of the text, or past it for the first time. */
  function ReadIndex(s: string): nat
    decreases |s|
  {
    if s == "" then 0
    else if Dropped(s[0]) then 1 + ReadIndex(s[1..])
    else if s[0] == '/' && |s| > 1 && s[1] == '/' then LineEnd(s) + ReadIndex(s[LineEnd(s)..])
    else
      var n :=
        if s[0] == '/' && |s| > 1 && s[1] == '*' then CommentEnd(s) else if s[0] == QUOTE then 1 + StringEnd(s[1..]) else 1;
      if n <= |s| then n + ReadIndex(s[n..]) else n
  }

  /** The loop stays inside the text exactly when every string and every block comment ends. */
  lemma {:induction false} ReadIndexExactlyWhenEnds(s: string)
    ensures ReadIndex(s) <= |s| <==> Ends(s)
    ensures ReadIndex(s) <= |s| ==> ReadIndex(s) == |s|
    decreases |s|
  {
    hide LineEnd, BlockEnd, Scan;
    if s != "" {
      if Dropped(s[0]) {
        ReadIndexExactlyWhenEnds(s[1..]);
      } else if s[0] == '/' && |s| > 1 && s[1] == '/' {
        ReadIndexExactlyWhenEnds(s[LineEnd(s)..]);
      } else if s[0] == '/' && |s| > 1 && s[1] == '*' {
        if BlockEnd(s).Some? { ReadIndexExactlyWhenEnds(s[CommentEnd(s)..]); }
      } else if s[0] == QUOTE {
        if Scan(s[1..]).Some? { ReadIndexExactlyWhenEnds(s[1 + StringEnd(s[1..])..]); }
      } else {
        ReadIndexExactlyWhenEnds(s[1..]);
      }
    }
  }

  /** An open string and an open comment: the loop reads one and two places behind the terminator's. */
  lemma ReadsPastTerminator()
    ensures ReadIndex("\"a") == 3 && ReadIndex("/*") == 4
  {
    assert "\"a"[1..] == "a" && Scan("a"[1..]) == None;
    assert Scan("a") == Beyond(1, Scan("a"[1..]));
    assert "/*"[1..] == "*" && BlockEnd("/*") == Beyond(1, BlockEnd("*"));
  }

  lemma MinifyStep(s: string)
    requires s != ""
    ensures Dropped(s[0]) ==> Minify(s) == Minify(s[1..]) && ReadIndex(s) == 1 + ReadIndex(s[1..])
    ensures s[0] == '/' && |s| > 1 && s[1] == '/' ==>
      Minify(s) == Minify(s[LineEnd(s)..]) && ReadIndex(s) == LineEnd(s) + ReadIndex(s[LineEnd(s)..])
    ensures s[0] == '/' && |s| > 1 && s[1] == '*' ==>
      var n := CommentEnd(s);
      if n <= |s| then Minify(s) == Minify(s[n..]) && ReadIndex(s) == n + ReadIndex(s[n..]) else ReadIndex(s) == n
    ensures s[0] == QUOTE ==>
      var n := 1 + StringEnd(s[1..]);
      if n <= |s| then Minify(s) == s[..n] + Minify(s[n..]) && ReadIndex(s) == n + ReadIndex(s[n..]) else ReadIndex(s) == n
    ensures Kept(s) ==> Minify(s) == [s[0]] + Minify(s[1..]) && ReadIndex(s) == 1 + ReadIndex(s[1..])
  {
    hide Minify, ReadIndex, Scan, BlockEnd, LineEnd, StringEnd, CommentEnd;
    MinifyCases(s);
    ReadCases(s);
  }

  lemma MinifyCases(s: string)
    requires s != ""
    ensures Dropped(s[0]) ==> Minify(s) == Minify(s[1..])
    ensures s[0] == '/' && |s| > 1 && s[1] == '/' ==> Minify(s) == Minify(s[LineEnd(s)..])
    ensures s[0] == '/' && |s| > 1 && s[1] == '*' && CommentEnd(s) <= |s| ==> Minify(s) == Minify(s[CommentEnd(s)..])
    ensures s[0] == QUOTE && 1 + StringEnd(s[1..]) <= |s| ==>
      var n := 1 + StringEnd(s[1..]); Minify(s) == s[..n] + Minify(s[n..])
    ensures Kept(s) ==> Minify(s) == [s[0]] + Minify(s[1..])
  {
    hide Scan, BlockEnd, LineEnd;
  }

  lemma ReadCases(s: string)
    requires s != ""
    ensures Dropped(s[0]) || Kept(s) ==> ReadIndex(s) == 1 + ReadIndex(s[1..])
    ensures s[0] == '/' && |s| > 1 && s[1] == '/' ==> ReadIndex(s) == LineEnd(s) + ReadIndex(s[LineEnd(s)..])
    ensures s[0] == '/' && |s| > 1 && s[1] == '*' ==>
      var n := CommentEnd(s); ReadIndex(s) == n + if n <= |s| then ReadIndex(s[n..]) else 0
    ensures s[0] == QUOTE ==>
      var n := 1 + StringEnd(s[1..]); ReadIndex(s) == n + if n <= |s| then ReadIndex(s[n..]) else 0
  {
    hide StringEnd, CommentEnd, LineEnd;
  }

  /** The text starts with a character that is kept and starts neither a comment nor a string. */
  predicate Kept(s: string)
    requires s != ""
  {
    !Dropped(s[0]) && s[0] != QUOTE && !(s[0] == '/' && |s| > 1 && (s[1] == '/' || s[1] == '*'))
  }

  // ----- the loop

  /** The buffer with kept characters written up to into, and the text from at on still to be read. */
  ghost predicate Halfway(json: array<char>, text: string, into: nat, at: nat)
    reads json
  {
    && into <= at <= |text| < json.Length && json[at..|text|] == text[at..] && json[|text|] == '\0'
    && json[..into] + Minify(text[at..]) == Minify(text) && at + ReadIndex(text[at..]) == ReadIndex(text)
  }

  /**
   * cJSON_Minify on a text of this length; the write index never passes the read index. The loop
   * of the source goes on reading when it has passed the terminator, and this one gives up there.
   */
  method MinifyInPlace(json: array<char>, length: nat, ghost text: string) returns (at: nat)
    requires |text| == length < json.Length && '\0' !in text && json[..length] == text && json[length] == '\0'
    modifies json
    ensures at == ReadIndex(text) && (at <= length <==> Ends(text))
    ensures Ends(text) ==>
      |Minify(text)| < json.Length && json[..|Minify(text)|] == Minify(text) && json[|Minify(text)|] == '\0'
  {
    hide Minify, ReadIndex, Ends, LineEnd, CommentEnd, StringEnd;
    ReadIndexExactlyWhenEnds(text);
    var into: nat := 0;
    at := 0;
    assert text[0..] == text && "" + Minify(text) == Minify(text);
    while json[at] != '\0'
      invariant Halfway(json, text, into, at)
      decreases |text| - at
    {
      assert at < |text|;
      NextChars(json, text, at);
      MinifyStep(text[at..]);
      if Dropped(json[at]) {
        at := at + 1;
      } else if json[at] == '/' && json[at + 1] == '/' {
        at := SkipLine(json, text, at);
      } else if json[at] == '/' && json[at + 1] == '*' {
        at := SkipBlock(json, text, at);
      } else if json[at] == QUOTE {
        into, at := CopyString(json, length, text, into, at);
      } else {
        into, at := CopyChar(json, text, into, at);
      }
      if at > length {
        return;
      }
    }
    assert at == |text|;
    MinifyNothing(text[at..], json[..into]);
    json[into] := '\0';
  }

  lemma NextChars(json: array<char>, text: string, at: nat)
    requires at < |text| < json.Length && json[at..|text|] == text[at..] && json[|text|] == '\0'
    ensures json[at] == text[at] == text[at..][0] && text[at..][1..] == text[at + 1..] && json[at + 1..|text|] == text[at + 1..]
    ensures at + 1 < |text| ==> json[at + 1] == text[at + 1] == text[at..][1]
    ensures at + 1 == |text| ==> json[at + 1] == '\0'
  {
  }

  lemma MinifyNothing(s: string, kept: string)
    requires s == ""
    ensures kept + Minify(s) == kept && ReadIndex(s) == 0
  {
  }

  method SkipLine(json: array<char>, ghost text: string, from: nat) returns (at: nat)
    requires from < |text| < json.Length && json[from..|text|] == text[from..] && json[|text|] == '\0' && '\0' !in text
    requires text[from] == '/'
    ensures at == from + LineEnd(text[from..])
  {
    at := from;
    while json[at] != '\0' && json[at] != '\n'
      invariant from <= at <= |text|
      invariant LineEnd(text[from..]) == at - from + LineEnd(text[at..])
      decreases |text| - at
    {
      assert json[at] == text[at] && text[at..][1..] == text[at + 1..];
      at := at + 1;
    }
    if at < |text| { assert json[at] == text[at]; }
  }

  method SkipBlock(json: array<char>, ghost text: string, from: nat) returns (at: nat)
    requires from < |text| < json.Length && json[from..|text|] == text[from..] && json[|text|] == '\0' && '\0' !in text
    ensures at == from + CommentEnd(text[from..])
  {
    at := from;
    while json[at] != '\0' && !(json[at] == '*' && json[at + 1] == '/')
      invariant from <= at <= |text|
      invariant from + CommentEnd(text[from..]) == at + CommentEnd(text[at..])
      decreases |text| - at
    {
      assert json[at] == text[at] && json[at + 1] == (text + "\0")[at + 1] && text[at..][1..] == text[at + 1..];
      at := at + 1;
    }
    if at < |text| { assert json[at] == text[at] && json[at + 1] == (text + "\0")[at + 1]; }
    at := at + 2;
  }

  method CopyChar(json: array<char>, ghost text: string, into: nat, at: nat) returns (into': nat, at': nat)
    requires Halfway(json, text, into, at) && at < |text| && Kept(text[at..])
    modifies json
    ensures Halfway(json, text, into', at') && into' == into + 1 && at' == at + 1
  {
    hide Minify, ReadIndex;
    ghost var kept, more := json[..into], Minify(text[at + 1..]);
    NextChars(json, text, at);
    MinifyStep(text[at..]);
    json[into] := json[at];
    assert json[..into + 1] == kept + [text[at]];
    assert kept + ([text[at]] + more) == kept + [text[at]] + more;
    return into + 1, at + 1;
  }

  /** A string literal is copied whole, stepping over escaped quotes; an open one with the terminator. */
  method CopyString(json: array<char>, length: nat, ghost text: string, from: nat, start: nat) returns (into: nat, at: nat)
    requires Halfway(json, text, from, start) && start < |text| && text[start] == QUOTE && '\0' !in text && |text| == length
    modifies json
    ensures at == start + 1 + StringEnd(text[start + 1..]) && into <= at
    ensures at <= |text| ==> Halfway(json, text, into, at)
  {
    hide Minify, ReadIndex, StringEnd, Copying, Halfway;
    StartCopying(json, text, from, start);
    ghost var kept := json[..from];
    into, at := from, start;
    into, at := CopyOne(json, text, kept, start, into, at);
    CopyingChar(json, text, kept, start, into, at);
    while json[at] != '\0' && json[at] != QUOTE
      invariant start < at <= |text| < json.Length && json[at] == (if at < |text| then text[at] else '\0')
      invariant Copying(json, text, kept, start, into, at) && into <= at
      invariant at + StringEnd(text[at..]) == start + 1 + StringEnd(text[start + 1..])
      decreases |text| - at
    {
      StringNext(text, at);
      if json[at] == BACKSLASH {
        into, at := CopyOne(json, text, kept, start, into, at);
      }
      if at == length {
        json[into] := '\0';
        return into + 1, at + 1;
      }
      into, at := CopyOne(json, text, kept, start, into, at);
      CopyingChar(json, text, kept, start, into, at);
    }
    StringHere(text, at);
    if at == length {
      json[into] := '\0';
      return into + 1, at + 1;
    }
    into, at := CopyOne(json, text, kept, start, into, at);
    StopCopying(json, text, kept, start, into, at);
  }

  lemma StartCopying(json: array<char>, text: string, into: nat, at: nat)
    requires Halfway(json, text, into, at)
    ensures into <= at <= |text| < json.Length && Copying(json, text, json[..into], at, into, at)
    ensures json[..into] + Minify(text[at..]) == Minify(text) && at + ReadIndex(text[at..]) == ReadIndex(text)
  {
    hide Minify, ReadIndex;
    assert json[..into] + text[at..at] == json[..into];
    forall k | at <= k < |text| ensures json[k] == text[k] {
      assert json[at..|text|][k - at] == text[at..][k - at];
    }
  }

  lemma CopyingChar(json: array<char>, text: string, kept: string, start: nat, into: nat, at: nat)
    requires Copying(json, text, kept, start, into, at)
    ensures at <= |text| < json.Length && json[at] == if at < |text| then text[at] else '\0'
  {
  }

  lemma StopCopying(json: array<char>, text: string, kept: string, start: nat, into: nat, at: nat)
    requires Copying(json, text, kept, start, into, at) && start < |text| && text[start] == QUOTE
    requires at == start + 1 + StringEnd(text[start + 1..]) && at <= |text|
    requires kept + Minify(text[start..]) == Minify(text) && start + ReadIndex(text[start..]) == ReadIndex(text)
    ensures Halfway(json, text, into, at)
  {
    hide Minify, ReadIndex, StringEnd;
    StringKept(text, start, at, kept);
    assert json[at..|text|] == text[at..];
  }

  /** Within a literal: what was read of it is what was written. */
  ghost predicate Copying(json: array<char>, text: string, kept: string, start: nat, into: nat, at: nat)
    reads json
  {
    && into <= at <= |text| < json.Length && start <= at && json[|text|] == '\0'
    && json[..into] == kept + text[start..at]
    && forall k :: at <= k < |text| ==> json[k] == text[k]
  }

  method CopyOne(json: array<char>, ghost text: string, ghost kept: string, ghost start: nat, into: nat, at: nat)
    returns (into': nat, at': nat)
    requires Copying(json, text, kept, start, into, at) && at < |text|
    modifies json
    ensures into' == into + 1 && at' == at + 1 && Copying(json, text, kept, start, into', at')
  {
    ghost var before := json[..into];
    json[into] := json[at];
    assert json[..into + 1] == before + [text[at]];
    assert kept + text[start..at] + [text[at]] == kept + text[start..at + 1];
    return into + 1, at + 1;
  }

  lemma StringNext(text: string, at: nat)
    requires at < |text| && text[at] != QUOTE
    ensures var k := if text[at] == BACKSLASH then 2 else 1;
      if at + k <= |text| then StringEnd(text[at..]) == k + StringEnd(text[at + k..]) else StringEnd(text[at..]) == k
  {
    hide Scan;
    var s := text[at..];
    assert s[0] == text[at] && s[1..] == text[at + 1..] && (|s| > 1 ==> s[2..] == text[at + 2..]);
    ScanStep(s);
  }

  lemma StringHere(text: string, at: nat)
    requires at <= |text| && (at < |text| ==> text[at] == QUOTE)
    ensures StringEnd(text[at..]) == 1
  {
    if at < |text| { assert text[at..][0] == text[at]; }
  }

  lemma StringKept(text: string, start: nat, end: nat, kept: string)
    requires start < end <= |text| && text[start] == QUOTE && end == start + 1 + StringEnd(text[start + 1..])
    ensures kept + text[start..end] + Minify(text[end..]) == kept + Minify(text[start..])
    ensures end + ReadIndex(text[end..]) == start + ReadIndex(text[start..])
  {
    hide Minify, ReadIndex, StringEnd;
    var s := text[start..];
    var n := 1 + StringEnd(s[1..]);
    assert s[0] == QUOTE && s[1..] == text[start + 1..] && s[..n] == text[start..end] && s[n..] == text[end..];
    MinifyStep(s);
    assert kept + (text[start..end] + Minify(text[end..])) == kept + text[start..end] + Minify(text[end..]);
  }

  // ----- what the parser sees of a minified text

  /** Minifying what is left of a buffer, terminator included. */
  function Squeeze(s: string): (r: string)
    requires Terminated(s)
    ensures Terminated(r)
  {
    Minify(s[..|s| - 1]) + "\0"
  }

  /** Outside strings there is no slash, and every string ends. */
  predicate Tidy(s: string)
    requires Terminated(s)
    decreases |s|
  {
    if |s| == 1 then true
    else if s[0] == QUOTE then Scan(s[1..]).Some? && (QuoteInside(s); Tidy(s[Scan(s[1..]).value + 2..]))
    else s[0] != '/' && Tidy(s[1..])
  }

  /** A string literal ends in front of the terminator. */
  lemma QuoteInside(s: string)
    requires Terminated(s) && |s| > 1 && Scan(s[1..]).Some?
    ensures Scan(s[1..]).value + 2 < |s|
  {
    assert s[Scan(s[1..]).value + 1] == QUOTE;
  }

  /** A character that is kept and means the same in front of any text. */
  predicate Plain(c: char) { !Dropped(c) && c != '/' && c != QUOTE }

  lemma SqueezeEnd(s: string)
    requires Terminated(s) && |s| == 1
    ensures Squeeze(s) == s == "\0" && Tidy(s)
  {
    assert s[..0] == "" && s == [s[0]];
    assert Minify("") == "";
  }

  lemma SqueezeDropped(s: string)
    requires Terminated(s) && |s| > 1 && Dropped(s[0])
    ensures Squeeze(s) == Squeeze(s[1..]) && (Tidy(s[1..]) ==> Tidy(s))
  {
    assert s[..|s| - 1][1..] == s[1..][..|s| - 2];
  }

  lemma SqueezePlain(s: string)
    requires Terminated(s) && |s| > 1 && Plain(s[0])
    ensures Squeeze(s) == [s[0]] + Squeeze(s[1..]) && (Tidy(s[1..]) ==> Tidy(s))
  {
    hide Scan, BlockEnd, LineEnd;
    FrontCut(s, 1);
    assert ([s[0]] + Minify(s[1..][..|s| - 2])) + "\0" == [s[0]] + (Minify(s[1..][..|s| - 2]) + "\0");
  }

  /** A token of plain characters. */
  lemma {:induction false} SqueezeToken(s: string, k: nat)
    requires Terminated(s) && k < |s| && forall i :: 0 <= i < k ==> Plain(s[i])
    ensures Squeeze(s) == s[..k] + Squeeze(s[k..]) && (Tidy(s[k..]) ==> Tidy(s))
  {
    if k == 0 {
      assert s[0..] == s && s[..0] + Squeeze(s) == Squeeze(s);
    } else {
      hide Squeeze, Tidy;
      SqueezePlain(s);
      SqueezeToken(s[1..], k - 1);
      assert s[1..][k - 1..] == s[k..] && s[..k] == [s[0]] + s[1..][..k - 1];
      assert [s[0]] + (s[1..][..k - 1] + Squeeze(s[k..])) == [s[0]] + s[1..][..k - 1] + Squeeze(s[k..]);
    }
  }

  /** Taking the terminator off and cutting the front off. */
  lemma FrontCut(s: string, k: nat)
    requires k < |s|
    ensures s[..|s| - 1][k..] == s[k..][..|s[k..]| - 1] && s[..|s| - 1][..k] == s[..k]
    ensures k > 0 ==> s[..|s| - 1][0] == s[0]
  {
  }

  lemma SqueezeString(s: string, n: nat)
    requires Terminated(s) && s[0] == QUOTE && Scan(s[1..]) == Some(n)
    ensures n + 2 < |s| && Squeeze(s) == s[..n + 2] + Squeeze(s[n + 2..]) && (Tidy(s[n + 2..]) ==> Tidy(s))
  {
    QuoteInside(s);
    hide Scan, Tidy, Squeeze;
    SqueezeFront(s, n);
    TidyQuote(s, n);
  }

  lemma SqueezeFront(s: string, n: nat)
    requires Terminated(s) && s[0] == QUOTE && Scan(s[1..]) == Some(n) && n + 2 < |s|
    ensures Squeeze(s) == s[..n + 2] + Squeeze(s[n + 2..])
  {
    hide Minify, Scan, Squeeze;
    var u, rest := s[..|s| - 1], s[n + 2..];
    var v := rest[..|rest| - 1];
    FrontCut(s, 1);
    FrontCut(s, n + 2);
    ScanFront(s, n);
    MinifyQuote(u, n);
    SqueezeIs(s);
    SqueezeIs(rest);
    assert Minify(u) == s[..n + 2] + Minify(v);
    Assoc(s[..n + 2], Minify(v), "\0");
  }

  lemma SqueezeIs(s: string)
    requires Terminated(s)
    ensures Squeeze(s) == Minify(s[..|s| - 1]) + "\0"
  {
  }

  lemma ScanFront(s: string, n: nat)
    requires |s| > 1 && Scan(s[1..]) == Some(n) && n + 2 < |s|
    ensures Scan(s[..|s| - 1][1..]) == Some(n)
  {
    hide Scan;
    FrontCut(s, 1);
    var t, v := s[1..], s[..|s| - 1][1..];
    assert v == t[..|t| - 1];
    assert t[..n + 1] == v[..n + 1];
    ScanLocal(t, v);
  }

  lemma MinifyQuote(u: string, n: nat)
    requires u != "" && u[0] == QUOTE && Scan(u[1..]) == Some(n)
    ensures Minify(u) == u[..n + 2] + Minify(u[n + 2..])
  {
    hide Scan, BlockEnd, LineEnd;
  }

  lemma TidyQuote(s: string, n: nat)
    requires Terminated(s) && n + 2 < |s| && s[0] == QUOTE && Scan(s[1..]) == Some(n)
    ensures Tidy(s) == Tidy(s[n + 2..])
  {
  }

  /** A place where a token or the terminator stands. */
  predicate AtToken(u: string)
    requires Terminated(u)
  {
    |u| == 1 || (u[0] > ' ' && u[0] != '/' && (u[0] == QUOTE ==> Scan(u[1..]).Some?))
  }

  lemma SqueezeAtToken(u: string)
    requires Terminated(u) && AtToken(u)
    ensures Squeeze(u)[0] == u[0] && Skip(Squeeze(u)) == Squeeze(u)
  {
    if |u| == 1 {
      SqueezeEnd(u);
    } else if u[0] == QUOTE {
      SqueezeString(u, Scan(u[1..]).value);
    } else {
      SqueezePlain(u);
    }
  }

  /** Skipping whitespace of the minified text leads to the minified rest. */
  lemma {:induction false} SqueezeSkip(s: string)
    requires Terminated(s) && AtToken(Skip(s))
    ensures Skip(Squeeze(s)) == Squeeze(Skip(s)) && (Tidy(Skip(s)) ==> Tidy(s))
    decreases |s|
  {
    if |s| > 1 && s[0] <= ' ' {
      hide Squeeze, Tidy;
      SqueezeSkip(s[1..]);
      if Dropped(s[0]) {
        SqueezeDropped(s);
      } else {
        SqueezePlain(s);
        SkipOne(s[0], Squeeze(s[1..]));
      }
    } else {
      SqueezeAtToken(s);
    }
  }

  lemma SkipOne(c: char, s: string)
    requires c <= ' ' && Terminated(s)
    ensures Skip([c] + s) == Skip(s)
  {
    assert ([c] + s)[1..] == s;
  }

  // ----- tokens read the same

  lemma LiteralKept(s: string, v: Json, k: nat)
    requires Terminated(s) && Literal(s) == Some((v, k))
    ensures k < |s| && AtToken(s) && Squeeze(s) == s[..k] + Squeeze(s[k..]) && (Tidy(s[k..]) ==> Tidy(s))
    ensures Literal(s[..k] + Squeeze(s[k..])) == Some((v, k))
  {
    hide Squeeze, Tidy, Literal;
    LiteralEnds(s);
    LiteralChars(s);
    SqueezeToken(s, k);
    LiteralInFront(s, k, Squeeze(s[k..]));
  }

  lemma LiteralChars(s: string)
    requires Literal(s).Some?
    ensures var k := Literal(s).value.1; 4 <= k <= |s| && forall i :: 0 <= i < k ==> Plain(s[i]) && s[i] > ' '
  {
    var k := Literal(s).value.1;
    assert forall i :: 0 <= i < k ==> s[i] == s[..k][i];
  }

  lemma LiteralInFront(s: string, k: nat, more: string)
    requires Literal(s).Some? && k == Literal(s).value.1 && k <= |s|
    ensures Literal(s[..k] + more) == Literal(s)
  {
    var t := s[..k] + more;
    assert t[..k] == s[..k];
    assert t[..4] == s[..k][..4] && s[..4] == s[..k][..4];
  }

  /** A string literal reads the same in front of any text. */
  lemma StringKeptInFront(s: string, out: string, rest: string)
    requires Terminated(s) && ParseString(s) == Parsed(out, rest)
    ensures AtToken(s) && ParseString(Squeeze(s)) == Parsed(out, Squeeze(rest)) && (Tidy(rest) ==> Tidy(s))
  {
    hide Decode, UpToNul, Tidy, Squeeze, Minify, Scan, ParseString;
    StringParts(s, out, rest);
    var n := Scan(s[1..]).value;
    SqueezeString(s, n);
    StringInFront(s, n, Squeeze(rest));
  }

  lemma StopsAtToken(rest: string)
    requires Terminated(rest) && Stops(rest)
    ensures AtToken(Skip(rest)) && !NumberChar(rest[0]) && !NumberChar(Squeeze(rest)[0])
  {
    hide Squeeze, Tidy, Scan;
    var u := Skip(rest);
    if |rest| == 1 || rest[0] > ' ' {
      assert u == rest;
      SqueezeAtToken(rest);
    } else {
      SqueezeSkip(rest);
      SqueezeAtToken(u);
      assert Skip(Squeeze(rest)) == Squeeze(u) && Squeeze(u)[0] == u[0];
    }
  }

  /** A number reads the same, because no number character moves up to it. */
  lemma NumberKept(num: Numerics, s: string, v: Json, rest: string)
    requires Terminated(s) && (s[0] == '-' || IsDigit(s[0])) && ParseNumber(num, s) == Parsed(v, rest) && Stops(rest)
    ensures AtToken(s) && Squeeze(s)[0] == s[0]
    ensures ParseNumber(num, Squeeze(s)) == Parsed(v, Squeeze(rest)) && (Tidy(rest) ==> Tidy(s))
  {
    hide Squeeze, Tidy, Skip, NumberPrefix;
    var p := NumberPrefix(s, 63);
    var k := num.scan(p).length;
    StopsAtToken(rest);
    assert rest == s[k..] && rest[0] == s[k];
    assert k == |p| && p == s[..k];
    assert forall i :: 0 <= i < k ==> s[i] == p[i];
    SqueezeToken(s, k);
    PrefixStops(p, Squeeze(rest), 63);
    assert Squeeze(s) == p + Squeeze(rest) && (p + Squeeze(rest))[k..] == Squeeze(rest);
    assert s[0] == p[0];
  }

  // ----- the grammar

  /** A value reads the same in the minified text. */
  lemma {:induction false} ValueKept(num: Numerics, s: string, d: nat, v: Json, rest: string)
    requires Terminated(s) && ParseValue(num, s, d) == Parsed(v, rest) && Stops(rest)
    ensures AtToken(s) && ParseValue(num, Squeeze(s), d) == Parsed(v, Squeeze(rest)) && (Tidy(rest) ==> Tidy(s))
    decreases |s|, 1
  {
    hide ParseValue, ParseString, ParseNumber, ParseArray, ParseObject, Squeeze, Tidy, Skip, Literal;
    ValueCases(num, s, d);
    ValueCases(num, Squeeze(s), d);
    if Literal(s).Some? {
      var k := Literal(s).value.1;
      LiteralKept(s, v, k);
      CutAgain(s, k, Squeeze(rest));
    } else if s[0] == QUOTE {
      StringKeptInFront(s, v.text, rest);
      SqueezeAtToken(s);
    } else if s[0] == '[' {
      ArrayKept(num, s, d, v, rest);
    } else if s[0] == '{' {
      ObjectKept(num, s, d, v, rest);
    } else {
      NumberKept(num, s, v, rest);
    }
  }

  lemma CutAgain(s: string, k: nat, more: string)
    requires k <= |s|
    ensures (s[..k] + more)[k..] == more
  {
  }

  /** One structural character. */
  lemma MarkKept(s: string)
    requires Terminated(s) && |s| > 1 && s[0] > ' ' && Plain(s[0])
    ensures AtToken(s) && Squeeze(s)[0] == s[0] && Squeeze(s)[1..] == Squeeze(s[1..]) && (Tidy(s[1..]) ==> Tidy(s))
  {
    hide Squeeze, Tidy;
    SqueezePlain(s);
  }

  lemma {:induction false} ArrayKept(num: Numerics, s: string, d: nat, v: Json, rest: string)
    requires Terminated(s) && s[0] == '[' && ParseArray(num, s, d) == Parsed(v, rest)
    ensures AtToken(s) && Squeeze(s)[0] == '['
    ensures ParseArray(num, Squeeze(s), d) == Parsed(v, Squeeze(rest)) && (Tidy(rest) ==> Tidy(s))
    decreases |s|, 0
  {
    hide Squeeze, Tidy, Skip, ParseElements;
    MarkKept(s);
    var t := Skip(s[1..]);
    SkipTwice(s[1..]);
    if t[0] == ']' {
      MarkKept(t);
      SqueezeSkip(s[1..]);
    } else {
      ElementsKept(num, t, d + 1, v.items, rest);
      SqueezeSkip(s[1..]);
      SqueezeAtToken(t);
    }
  }

  lemma ElementsCase(num: Numerics, s: string, d: nat, items: seq<Json>, rest: string) returns (v: Json, after: string)
    requires Terminated(s) && ParseElements(num, s, d) == Parsed(items, rest)
    ensures ParseValue(num, Skip(s), d) == Parsed(v, after) && Terminated(after) && |after| < |s| && items != [] && items[0] == v
    ensures var u := Skip(after); (u[0] == ',' || u[0] == ']') && |u| > 1
    ensures var u := Skip(after);
      if u[0] == ',' then ParseElements(num, u[1..], d) == Parsed(items[1..], rest) else items == [v] && rest == u[1..]
  {
    hide ParseValue;
    v, after := ParseValue(num, Skip(s), d).value, ParseValue(num, Skip(s), d).rest;
    var u := Skip(after);
    if u[0] == ',' {
      var more := ParseElements(num, u[1..], d).value;
      assert ([v] + more)[1..] == more;
    }
  }

  lemma ElementsMake(num: Numerics, s: string, d: nat, items: seq<Json>, after: string, rest: string)
    requires Terminated(s) && items != [] && ParseValue(num, Skip(s), d) == Parsed(items[0], after) && Terminated(after)
    requires var u := Skip(after); |u| > 1 && if u[0] == ',' then ParseElements(num, u[1..], d) == Parsed(items[1..], rest)
      else u[0] == ']' && |items| == 1 && rest == u[1..]
    ensures ParseElements(num, s, d) == Parsed(items, rest)
  {
    hide ParseValue;
    assert [items[0]] + items[1..] == items;
    assert |items| == 1 ==> items == [items[0]];
  }

  /** The elements up to the closing bracket read the same. */
  lemma {:induction false} ElementsKept(num: Numerics, s: string, d: nat, items: seq<Json>, rest: string)
    requires Terminated(s) && ParseElements(num, s, d) == Parsed(items, rest)
    ensures AtToken(Skip(s)) && ParseElements(num, Squeeze(s), d) == Parsed(items, Squeeze(rest)) && (Tidy(rest) ==> Tidy(s))
    decreases |s|, 2
  {
    hide Squeeze, Tidy, Skip, ParseElements, ParseValue;
    var v, after := ElementsCase(num, s, d, items, rest);
    var u := Skip(after);
    ValueKept(num, Skip(s), d, v, after);
    MarkKept(u);
    SqueezeSkip(s);
    SqueezeSkip(after);
    if u[0] == ',' { ElementsKept(num, u[1..], d, items[1..], rest); }
    ElementsMake(num, Squeeze(s), d, items, Squeeze(after), Squeeze(rest));
  }

  lemma {:induction false} ObjectKept(num: Numerics, s: string, d: nat, v: Json, rest: string)
    requires Terminated(s) && s[0] == '{' && ParseObject(num, s, d) == Parsed(v, rest)
    ensures AtToken(s) && Squeeze(s)[0] == '{'
    ensures ParseObject(num, Squeeze(s), d) == Parsed(v, Squeeze(rest)) && (Tidy(rest) ==> Tidy(s))
    decreases |s|, 0
  {
    hide Squeeze, Tidy, Skip, ParseMembers;
    MarkKept(s);
    var t := Skip(s[1..]);
    SkipTwice(s[1..]);
    if t[0] == '}' {
      MarkKept(t);
      SqueezeSkip(s[1..]);
    } else {
      MembersKept(num, t, d + 1, v.members, rest);
      SqueezeSkip(s[1..]);
      SqueezeAtToken(t);
    }
  }

  lemma MemberCase(num: Numerics, s: string, d: nat, m: Member<Json>, rest: string) returns (after: string)
    requires Terminated(s) && ParseMember(num, s, d) == Parsed(m, rest)
    ensures ParseString(Skip(s)) == Parsed(m.key, after) && Terminated(after) && |after| < |s|
    ensures var u := Skip(after); u[0] == ':' && |u| > 1 && ParseValue(num, Skip(u[1..]), d) == Parsed(m.value, rest)
  {
    hide ParseValue, ParseString;
    after := ParseString(Skip(s)).rest;
  }

  lemma MemberMake(num: Numerics, s: string, d: nat, m: Member<Json>, after: string, rest: string)
    requires Terminated(s) && ParseString(Skip(s)) == Parsed(m.key, after) && Terminated(after)
    requires var u := Skip(after); u[0] == ':' && |u| > 1 && ParseValue(num, Skip(u[1..]), d) == Parsed(m.value, rest)
    ensures ParseMember(num, s, d) == Parsed(m, rest)
  {
    hide ParseValue, ParseString;
  }

  lemma {:induction false} MemberKept(num: Numerics, s: string, d: nat, m: Member<Json>, rest: string)
    requires Terminated(s) && ParseMember(num, s, d) == Parsed(m, rest) && Stops(rest)
    ensures AtToken(Skip(s)) && ParseMember(num, Squeeze(s), d) == Parsed(m, Squeeze(rest)) && (Tidy(rest) ==> Tidy(s))
    decreases |s|, 2
  {
    hide Squeeze, Tidy, Skip, ParseMember, ParseValue, ParseString;
    var after := MemberCase(num, s, d, m, rest);
    var u := Skip(after);
    ValueKept(num, Skip(u[1..]), d, m.value, rest);
    SqueezeSkip(u[1..]);
    MarkKept(u);
    SqueezeSkip(after);
    StringKeptInFront(Skip(s), m.key, after);
    SqueezeSkip(s);
    MemberMake(num, Squeeze(s), d, m, Squeeze(after), Squeeze(rest));
  }

  lemma MembersCase(num: Numerics, s: string, d: nat, ms: seq<Member<Json>>, rest: string) returns (m: Member<Json>, after: string)
    requires Terminated(s) && ParseMembers(num, s, d) == Parsed(ms, rest)
    ensures ParseMember(num, s, d) == Parsed(m, after) && Terminated(after) && |after| < |s| && ms != [] && ms[0] == m
    ensures var u := Skip(after); (u[0] == ',' || u[0] == '}') && |u| > 1
    ensures var u := Skip(after);
      if u[0] == ',' then ParseMembers(num, u[1..], d) == Parsed(ms[1..], rest) else ms == [m] && rest == u[1..]
  {
    hide ParseMember;
    m, after := ParseMember(num, s, d).value, ParseMember(num, s, d).rest;
    var u := Skip(after);
    if u[0] == ',' {
      var more := ParseMembers(num, u[1..], d).value;
      assert ([m] + more)[1..] == more;
    }
  }

  lemma MembersMake(num: Numerics, s: string, d: nat, ms: seq<Member<Json>>, after: string, rest: string)
    requires Terminated(s) && ms != [] && ParseMember(num, s, d) == Parsed(ms[0], after) && Terminated(after)
    requires var u := Skip(after); |u| > 1 && if u[0] == ',' then ParseMembers(num, u[1..], d) == Parsed(ms[1..], rest)
      else u[0] == '}' && |ms| == 1 && rest == u[1..]
    ensures ParseMembers(num, s, d) == Parsed(ms, rest)
  {
    hide ParseMember;
    assert [ms[0]] + ms[1..] == ms;
    assert |ms| == 1 ==> ms == [ms[0]];
  }

  /** The members up to the closing brace read the same. */
  lemma {:induction false} MembersKept(num: Numerics, s: string, d: nat, ms: seq<Member<Json>>, rest: string)
    requires Terminated(s) && ParseMembers(num, s, d) == Parsed(ms, rest)
    ensures AtToken(Skip(s)) && ParseMembers(num, Squeeze(s), d) == Parsed(ms, Squeeze(rest)) && (Tidy(rest) ==> Tidy(s))
    decreases |s|, 3
  {
    hide Squeeze, Tidy, Skip, ParseMembers, ParseMember;
    var m, after := MembersCase(num, s, d, ms, rest);
    var u := Skip(after);
    MemberKept(num, s, d, m, after);
    MarkKept(u);
    SqueezeSkip(after);
    if u[0] == ',' { MembersKept(num, u[1..], d, ms[1..], rest); }
    MembersMake(num, Squeeze(s), d, ms, Squeeze(after), Squeeze(rest));
  }

  // ----- the whole text

  lemma EndsCases(u: string)
    ensures u == "" ==> Ends(u) && Minify(u) == ""
    ensures u != "" && Dropped(u[0]) ==> Ends(u) == Ends(u[1..]) && Minify(u) == Minify(u[1..])
    ensures u != "" && Plain(u[0]) ==> Ends(u) == Ends(u[1..]) && Minify(u) == [u[0]] + Minify(u[1..])
    ensures u != "" && u[0] == QUOTE && Scan(u[1..]).Some? ==>
      var n := Scan(u[1..]).value; Ends(u) == Ends(u[n + 2..]) && Minify(u) == u[..n + 2] + Minify(u[n + 2..])
  {
  }

  lemma StringAgain(u: string, n: nat, more: string)
    requires |u| >= n + 2 && u[0] == QUOTE && Scan(u[1..]) == Some(n)
    ensures Minify(u[..n + 2] + more) == u[..n + 2] + Minify(more)
  {
    hide Scan, Minify;
    var t := u[..n + 2] + more;
    assert t[0] == QUOTE && t[..n + 2] == u[..n + 2] && t[n + 2..] == more;
    assert t[1..][..n + 1] == u[..n + 2][1..] == u[1..][..n + 1];
    ScanLocal(u[1..], t[1..]);
    EndsCases(t);
  }

  lemma PlainAgain(c: char, more: string)
    requires Plain(c)
    ensures Minify([c] + more) == [c] + Minify(more)
  {
    hide Minify;
    assert ([c] + more)[1..] == more;
    EndsCases([c] + more);
  }

  /** In a tidy text everything ends, and what was kept once is kept again. */
  lemma {:induction false} TidyEnds(s: string)
    requires Terminated(s) && Tidy(s)
    ensures Ends(s[..|s| - 1]) && Minify(Minify(s[..|s| - 1])) == Minify(s[..|s| - 1])
    decreases |s|
  {
    hide Ends, Minify, Scan;
    var u := s[..|s| - 1];
    EndsCases(u);
    if |s| > 1 {
      FrontCut(s, 1);
      if s[0] == QUOTE {
        var n := Scan(s[1..]).value;
        QuoteInside(s);
        ScanFront(s, n);
        FrontCut(s, n + 2);
        TidyEnds(s[n + 2..]);
        StringAgain(u, n, Minify(u[n + 2..]));
      } else {
        TidyEnds(s[1..]);
        if !Dropped(s[0]) { PlainAgain(s[0], Minify(u[1..])); }
      }
    }
  }

  lemma ValueStart(num: Numerics, s: string, d: nat)
    requires Terminated(s) && ParseValue(num, s, d).Parsed?
    ensures |s| > 1 && s[0] as int < 0x80
  {
    hide ParseValue;
    ValueCases(num, s, d);
    if Literal(s).Some? { assert s[0] == s[..Literal(s).value.1][0]; }
  }

  predicate Marked(s: string) { |s| > 4 && s[0] as int == 0xEF && s[1] as int == 0xBB && s[2] as int == 0xBF }

  /** The byte order mark is kept, and none appears. */
  lemma BomKept(s: string, b: string)
    requires Terminated(s) && b == SkipBom(s)
    requires AtToken(Skip(b)) && |Skip(b)| > 1 && Skip(b)[0] as int < 0x80
    ensures SkipBom(Squeeze(s)) == Squeeze(b) && (Tidy(b) ==> Tidy(s))
  {
    hide Squeeze, Tidy, Skip, AtToken;
    TokenAhead(b);
    if Marked(s) {
      MarkInFront(s);
    } else {
      NoBom(Squeeze(s));
    }
  }

  lemma TokenAhead(b: string)
    requires Terminated(b) && AtToken(Skip(b)) && |Skip(b)| > 1 && Skip(b)[0] as int < 0x80
    ensures |Squeeze(b)| > 1 && Squeeze(b)[0] as int < 0x80
  {
    hide Squeeze, Tidy, Skip;
    SqueezeSkip(b);
    SqueezeAtToken(Skip(b));
    TokenLeads(Squeeze(b));
  }

  lemma MarkInFront(s: string)
    requires Terminated(s) && Marked(s) && |Squeeze(s[3..])| > 1
    ensures SkipBom(Squeeze(s)) == Squeeze(s[3..]) && (Tidy(s[3..]) ==> Tidy(s))
  {
    hide Squeeze, Tidy, SkipBom;
    SqueezeToken(s, 3);
    BomInFront(s, Squeeze(s[3..]));
  }

  lemma BomInFront(s: string, more: string)
    requires Marked(s) && Terminated(more) && |more| > 1
    ensures Terminated(s[..3] + more) && SkipBom(s[..3] + more) == more
  {
    assert (s[..3] + more)[3..] == more;
  }

  lemma NoBom(s: string)
    requires Terminated(s) && s[0] as int < 0x80
    ensures SkipBom(s) == s
  {
  }

  lemma TokenLeads(s: string)
    requires Terminated(s) && Skip(s)[0] != '\0' && Skip(s)[0] as int < 0x80
    ensures |s| > 1 && s[0] as int < 0x80
  {
    if s[0] > ' ' { assert Skip(s) == s; }
  }

  /**
   * A text that parses strictly can be minified in place, parses strictly to the same tree then, and
   * minifying it again changes nothing.
   */
  lemma MinifyKeepsMeaning(num: Numerics, text: string, v: Json, rest: string)
    requires Parse(num, text, true) == Parsed(v, rest)
    ensures Ends(text) && Parse(num, Minify(text), true) == Parsed(v, "\0") && Minify(Minify(text)) == Minify(text)
  {
    hide Squeeze, Tidy, Skip, ParseValue, Minify, Ends, SkipBom;
    var s := text + "\0";
    assert s[..|s| - 1] == text;
    var b := SkipBom(s);
    var x := Skip(b);
    var after := ParseValue(num, x, 0).rest;
    ValueStart(num, x, 0);
    OnlyTerminator(after);
    ValueKept(num, x, 0, v, after);
    SqueezeSkip(b);
    SqueezeSkip(after);
    BomKept(s, b);
    SqueezeIs(s);
    SqueezeEnd("\0");
    TidyEnds(s);
  }

  lemma OnlyTerminator(after: string)
    requires Terminated(after) && Skip(after)[0] == '\0'
    ensures Skip(after) == "\0" && Stops(after) && AtToken(Skip(after))
  {
    var u := Skip(after);
    assert |u| == 1 && u == [u[0]];
  }
}
