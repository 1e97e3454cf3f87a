// JSON Pointer: how cJSON_Utils.c reads, writes and resolves path strings, and the resolution that
// section 4 of RFC 6901 prescribes on the abstract document.
module Pointers {
  import opened Texts
  import opened Documents

  // ----- the text of a pointer

  /** Length of the reference token that p starts with. */
  function TokenEnd(p: string): (n: nat)
    ensures n <= |p| && '/' !in p[..n]
    ensures n < |p| ==> p[n] == '/'
  {
    if p == "" || p[0] == '/' then 0
    else
      var n := TokenEnd(p[1..]);
      assert p[..n + 1] == [p[0]] + p[1..][..n];
      n + 1
  }

  function Token(p: string): string { p[..TokenEnd(p)] }

  function Rest(p: string): string { p[TokenEnd(p)..] }

  /** A JSON pointer is empty or starts with a slash. */
  predicate IsPointer(p: string) { p == "" || p[0] == '/' }

  /** The reference tokens, still escaped. Text that does not start with a slash has none. */
  function Tokens(p: string): seq<string>
    decreases |p|
  {
    if p == "" || p[0] != '/' then [] else [Token(p[1..])] + Tokens(Rest(p[1..]))
  }

  lemma TokenOfConcat(t: string, r: string)
    requires '/' !in t && IsPointer(r)
    ensures Token(t + r) == t && Rest(t + r) == r
  {
    var p := t + r;
    var n := TokenEnd(p);
    assert forall k :: 0 <= k < |t| ==> p[k] == t[k];
    assert r != "" ==> p[|t|] == '/';
    assert forall k :: 0 <= k < n ==> p[k] == p[..n][k];
    assert p[..|t|] == t && p[|t|..] == r;
  }

  lemma TokensStep(t: string, r: string)
    requires '/' !in t && IsPointer(r)
    ensures Tokens("/" + (t + r)) == [t] + Tokens(r)
  {
    var p := "/" + (t + r);
    assert p[0] == '/' && p[1..] == t + r;
    TokenOfConcat(t, r);
  }

  lemma FirstToken(p: string)
    requires p != "" && p[0] == '/'
    ensures var t, r := Token(p[1..]), Rest(p[1..]);
      '/' !in t && IsPointer(r) && |r| < |p| && p == "/" + (t + r)
  {
  }

  lemma {:induction false} TokensAppend(p: string, t: string)
    requires IsPointer(p) && '/' !in t
    ensures Tokens(p + "/" + t) == Tokens(p) + [t]
    decreases |p|
  {
    hide Tokens, Token, Rest;
    if p == "" {
      assert "" + "/" + t == "/" + (t + "");
      TokensStep(t, "");
      NoTokens();
    } else {
      FirstToken(p);
      TokensAppend(Rest(p[1..]), t);
      TokensAppendStep(Token(p[1..]), Rest(p[1..]), t);
    }
  }

  lemma NoTokens()
    ensures Tokens("") == []
  {
  }

  lemma TokensAppendStep(t0: string, r0: string, t: string)
    requires '/' !in t0 && IsPointer(r0) && Tokens(r0 + "/" + t) == Tokens(r0) + [t]
    ensures Tokens("/" + (t0 + r0) + "/" + t) == Tokens("/" + (t0 + r0)) + [t]
  {
    hide Tokens;
    assert IsPointer(r0 + "/" + t) by { if r0 != "" { assert (r0 + "/" + t)[0] == r0[0]; } }
    TokensStep(t0, r0);
    TokensStep(t0, r0 + "/" + t);
    SlashRegroup(t0, r0, t);
    assert [t0] + (Tokens(r0) + [t]) == [t0] + Tokens(r0) + [t];
  }

  lemma SlashRegroup(a: string, b: string, c: string)
    ensures "/" + (a + b) + "/" + c == "/" + (a + (b + "/" + c))
  {
  }

  // ----- escaping

  /** A key that needs no escaping. */
  predicate Clean(s: string) { '~' !in s && '/' !in s }

  /** Section 3 of RFC 6901: '~' is written "~0" and '/' is written "~1". */
  function Escape(s: string): string {
    if s == "" then ""
    else (if s[0] == '~' then "~0" else if s[0] == '/' then "~1" else [s[0]]) + Escape(s[1..])
  }

  /** Section 4 of RFC 6901; a '~' not followed by '0' or '1' is an error. */
  function Unescape(t: string): Option<string>
    decreases |t|
  {
    if t == "" then Some("")
    else if t[0] == '~' then
      if |t| >= 2 && (t[1] == '0' || t[1] == '1') then
        match Unescape(t[2..])
        case Some(r) => Some([if t[1] == '0' then '~' else '/'] + r)
        case None => None
      else None
    else
      match Unescape(t[1..])
      case Some(r) => Some([t[0]] + r)
      case None => None
  }

  lemma {:induction false} UnescapeEscape(s: string)
    ensures Unescape(Escape(s)) == Some(s)
    ensures '/' !in Escape(s)
  {
    if s != "" {
      UnescapeEscape(s[1..]);
      var h := if s[0] == '~' then "~0" else if s[0] == '/' then "~1" else [s[0]];
      assert Escape(s)[|h|..] == Escape(s[1..]);
      assert s == [s[0]] + s[1..];
    }
  }

  lemma {:induction false} UnescapeClean(s: string)
    requires Clean(s)
    ensures Unescape(s) == Some(s)
  {
    if s != "" {
      UnescapeClean(s[1..]);
      assert s == [s[0]] + s[1..];
    }
  }

  /**
   * encode_string_as_pointer. A slash only writes the second byte of its escape, so the first keeps
   * what the memory held before; a tilde is written "~1".
   */
  function Encode(s: string, stale: char): string {
    if s == "" then ""
    else (if s[0] == '/' then [stale, '1'] else if s[0] == '~' then "~1" else [s[0]]) + Encode(s[1..], stale)
  }

  lemma {:induction false} EncodeClean(s: string, stale: char)
    requires Clean(s)
    ensures Encode(s, stale) == s
  {
    if s != "" {
      EncodeClean(s[1..], stale);
      assert s == [s[0]] + s[1..];
    }
  }

  lemma {:induction false} EncodeDirty(s: string)
    requires !Clean(s)
    ensures Encode(s, 'x') != Escape(s)
  {
    var c := s[0];
    var e, f := Encode(s, 'x'), Escape(s);
    if c == '/' {
      assert e[0] == 'x' && f[0] == '~';
    } else if c == '~' {
      assert e[1] == '1' && f[1] == '0';
    } else {
      EncodeDirty(s[1..]);
      assert e[1..] == Encode(s[1..], 'x') && f[1..] == Escape(s[1..]);
    }
  }

  /** The encoder writes the escaped key, whatever the memory held, exactly for keys that need no escape. */
  lemma EncodeIsEscapeExactlyWhenClean(s: string)
    ensures (forall stale :: Encode(s, stale) == Escape(s)) <==> Clean(s)
  {
    if Clean(s) {
      EscapeClean(s);
      forall stale ensures Encode(s, stale) == Escape(s) { EncodeClean(s, stale); }
    } else {
      EncodeDirty(s);
    }
  }

  /** The keys "~" and "/": the written tokens are "~1" and, behind an unwritten byte, "1". */
  lemma EncodeExamples(stale: char)
    ensures Encode("~", stale) == "~1" && Escape("~") == "~0"
    ensures Encode("/", stale) == [stale, '1'] && Escape("/") == "~1"
  {
    assert "~"[1..] == "" && "/"[1..] == "";
  }

  lemma {:induction false} EscapeClean(s: string)
    requires Clean(s)
    ensures Escape(s) == s
  {
    if s != "" {
      EscapeClean(s[1..]);
      assert s == [s[0]] + s[1..];
    }
  }

  /**
   * decode_pointer_inplace on the text buf, having read up to r and written up to d: characters
   * that are not escapes are skipped but never copied, and "~1" writes its slash one place too far.
   */
  function DecodeFrom(buf: string, d: nat, r: nat): string
    requires d <= r <= |buf|
    decreases |buf| - r
  {
    if r == |buf| then buf[..d]
    else if buf[r] == '~' then
      if r + 1 < |buf| && buf[r + 1] == '0' then DecodeFrom(buf[d := '~'], d + 1, r + 2)
      else if r + 1 < |buf| && buf[r + 1] == '1' then DecodeFrom(buf[d + 1 := '/'], d + 1, r + 2)
      else buf
    else DecodeFrom(buf, d + 1, r + 1)
  }

  function DecodeInPlace(s: string): string { DecodeFrom(s, 0, 0) }

  /** What has been written stays. */
  lemma {:induction false} DecodeKeeps(buf: string, d: nat, r: nat)
    requires d <= r <= |buf|
    ensures d <= |DecodeFrom(buf, d, r)| && DecodeFrom(buf, d, r)[..d] == buf[..d]
    decreases |buf| - r
  {
    if r < |buf| {
      if buf[r] != '~' {
        DecodeKeeps(buf, d + 1, r + 1);
        assert DecodeFrom(buf, d + 1, r + 1)[..d + 1][..d] == buf[..d + 1][..d];
      } else if r + 1 < |buf| && (buf[r + 1] == '0' || buf[r + 1] == '1') {
        var b := if buf[r + 1] == '0' then buf[d := '~'] else buf[d + 1 := '/'];
        DecodeKeeps(b, d + 1, r + 2);
        assert DecodeFrom(b, d + 1, r + 2)[..d + 1][..d] == b[..d + 1][..d] == buf[..d];
      }
    }
  }

  /**
   * From r on there is no "~1", and every plain character equals the one that stands at the place d
   * it is decoded to: the decoder moves that place on without writing.
   */
  predicate Settles(t: string, d: nat, r: nat)
    requires d <= r <= |t|
    decreases |t| - r
  {
    if r == |t| then true
    else if t[r] == '~' then r + 1 < |t| && t[r + 1] == '0' && Settles(t, d + 1, r + 2)
    else t[d] == t[r] && Settles(t, d + 1, r + 1)
  }

  /** The decoder is right on the rest of the token exactly when that rest settles. */
  lemma {:induction false} DecodeSettles(t: string, buf: string, d: nat, r: nat, u: string)
    requires d <= r <= |t| == |buf| && '/' !in t && buf[d..] == t[d..] && Unescape(t[r..]) == Some(u)
    ensures DecodeFrom(buf, d, r) == buf[..d] + u <==> Settles(t, d, r)
    decreases |t| - r
  {
    hide Unescape, DecodeFrom;
    UnescapeStep(t[r..]);
    DecodeStep(buf, d, r);
    if r < |t| {
      SameRest(t, buf, d, r);
      if t[r] != '~' {
        var v := Unescape(t[r + 1..]).value;
        SuffixAt(t, r, 1);
        DecodeSettles(t, buf, d + 1, r + 1, v);
        DecodeKeeps(buf, d + 1, r + 1);
        WrittenNext(DecodeFrom(buf, d + 1, r + 1), buf, buf, d, t[r], v);
      } else {
        SuffixAt(t, r, 2);
        var v := Unescape(t[r + 2..]).value;
        if t[r + 1] == '0' {
          var b := buf[d := '~'];
          DecodeKeeps(b, d + 1, r + 2);
          DecodeSettles(t, b, d + 1, r + 2, v);
          WrittenNext(DecodeFrom(b, d + 1, r + 2), b, buf, d, '~', v);
        } else {
          var b := buf[d + 1 := '/'];
          DecodeKeeps(b, d + 1, r + 2);
          WrittenNext(DecodeFrom(b, d + 1, r + 2), b, buf, d, '/', v);
        }
      }
    }
  }

  lemma SuffixAt(t: string, r: nat, k: nat)
    requires r < |t| && (k == 1 || (k == 2 && |t[r..]| >= 2))
    ensures t[r..][k..] == t[r + k..] && t[r..][0] == t[r]
    ensures k == 2 ==> r + 1 < |t| && t[r..][1] == t[r + 1]
  {
  }

  lemma DecodeStep(buf: string, d: nat, r: nat)
    requires d <= r <= |buf|
    ensures r == |buf| ==> DecodeFrom(buf, d, r) == buf[..d]
    ensures r < |buf| && buf[r] != '~' ==> DecodeFrom(buf, d, r) == DecodeFrom(buf, d + 1, r + 1)
    ensures r + 1 < |buf| && buf[r] == '~' && buf[r + 1] == '0' ==>
      DecodeFrom(buf, d, r) == DecodeFrom(buf[d := '~'], d + 1, r + 2)
    ensures r + 1 < |buf| && buf[r] == '~' && buf[r + 1] == '1' ==>
      DecodeFrom(buf, d, r) == DecodeFrom(buf[d + 1 := '/'], d + 1, r + 2)
  {
  }

  lemma SameRest(t: string, buf: string, d: nat, r: nat)
    requires d <= r < |t| == |buf| && buf[d..] == t[d..]
    ensures buf[d] == t[d] && buf[r] == t[r] && buf[d + 1..] == t[d + 1..]
    ensures r + 1 < |t| ==> buf[r + 1] == t[r + 1]
    ensures buf[d := '~'][d + 1..] == t[d + 1..]
  {
    assert forall k :: d <= k < |t| ==> buf[k] == buf[d..][k - d] && t[k] == t[d..][k - d];
  }

  lemma UnescapeStep(s: string)
    requires Unescape(s).Some?
    ensures s == "" ==> Unescape(s).value == ""
    ensures s != "" && s[0] != '~' ==> Unescape(s[1..]).Some? && Unescape(s).value == [s[0]] + Unescape(s[1..]).value
    ensures s != "" && s[0] == '~' ==>
      && |s| >= 2 && (s[1] == '0' || s[1] == '1') && Unescape(s[2..]).Some?
      && Unescape(s).value == [if s[1] == '0' then '~' else '/'] + Unescape(s[2..]).value
  {
  }

  /** A text that has kept b up to d, read with c as its next character. */
  lemma WrittenNext(s: string, b: string, buf: string, d: nat, c: char, v: string)
    requires d < |b| == |buf| && d < |s| && s[..d + 1] == b[..d + 1] && b[..d] == buf[..d]
    ensures s == buf[..d] + ([c] + v) <==> b[d] == c && s == b[..d + 1] + v
  {
    assert b[..d + 1] == b[..d] + [b[d]];
    assert s[d] == s[..d + 1][d] == b[d];
    assert buf[..d] + ([c] + v) == buf[..d] + [c] + v;
    assert (buf[..d] + ([c] + v))[d] == c;
  }

  /** The in-place decoder gives the unescaped token exactly when the token settles. */
  lemma DecodeExactlyWhenSettles(t: string)
    requires '/' !in t && Unescape(t).Some?
    ensures Some(DecodeInPlace(t)) == Unescape(t) <==> Settles(t, 0, 0)
  {
    assert t[0..] == t;
    DecodeSettles(t, t, 0, 0, Unescape(t).value);
    assert t[..0] + Unescape(t).value == Unescape(t).value;
  }

  /** Two escapes that go wrong: of a slash, and of a tilde with another text behind it; one that does not. */
  lemma DecodeExamples()
    ensures !Settles("~1", 0, 0) && !Settles("~0a", 0, 0) && Settles("a~0", 0, 0)
    ensures DecodeInPlace("~1") != "/" && DecodeInPlace("~0a") != "~a" && DecodeInPlace("a~0") == "a~"
  {
    UnescapeOne();
    DecodeExactlyWhenSettles("~1");
    DecodeExactlyWhenSettles("~0a");
    DecodeExactlyWhenSettles("a~0");
  }

  lemma UnescapeOne()
    ensures Unescape("~1") == Some("/") && Unescape("~0a") == Some("~a") && Unescape("a~0") == Some("a~")
  {
    assert Unescape("") == Some("");
    assert "~1"[2..] == "" && ['/'] + "" == "/";
    assert "a"[1..] == "" && ['a'] + "" == "a" && Unescape("a") == Some("a");
    assert "~0a"[2..] == "a" && ['~'] + "a" == "~a";
    assert "~0"[2..] == "" && ['~'] + "" == "~" && Unescape("~0") == Some("~");
    assert "a~0"[1..] == "~0" && ['a'] + "~" == "a~";
  }

  /** A token that the code reads as RFC 6901 does. */
  predicate Plain(t: string) { '/' !in t && Unescape(t).Some? && Settles(t, 0, 0) }

  lemma {:induction false} SettlesClean(t: string, d: nat)
    requires '~' !in t && d <= |t|
    ensures Settles(t, d, d)
    decreases |t| - d
  {
    if d < |t| { SettlesClean(t, d + 1); }
  }

  /** A token without escapes is plain and stands for itself. */
  lemma CleanIsPlain(t: string)
    requires Clean(t)
    ensures Plain(t) && Unescape(t) == Some(t)
  {
    UnescapeClean(t);
    SettlesClean(t, 0);
  }

  lemma {:induction false} SettlesNoSlash(t: string, d: nat, r: nat)
    requires d <= r <= |t| && '/' !in t && Unescape(t[r..]).Some? && Settles(t, d, r)
    ensures '/' !in Unescape(t[r..]).value
    decreases |t| - r
  {
    hide Unescape;
    UnescapeStep(t[r..]);
    if r < |t| {
      if t[r] == '~' {
        assert t[r..][2..] == t[r + 2..];
        SettlesNoSlash(t, d + 1, r + 2);
      } else {
        assert t[r..][1..] == t[r + 1..];
        SettlesNoSlash(t, d + 1, r + 1);
      }
    }
  }

  /** compare_pointers: does the token at the start of p name this key? */
  predicate MatchToken(name: string, p: string)
    decreases |p|
  {
    if name == "" || p == "" || p[0] == '/' then (name == "") == (p == "" || p[0] == '/')
    else if p[0] == '~' then
      |p| >= 2 && ((p[1] == '0' && name[0] == '~') || (p[1] == '1' && name[0] == '/')) && MatchToken(name[1..], p[2..])
    else ToLower(name[0]) == ToLower(p[0]) && MatchToken(name[1..], p[1..])
  }

  /** It does exactly when the unescaped token is the key, up to case. */
  lemma {:induction false} MatchTokenIsUnescape(name: string, p: string)
    ensures MatchToken(name, p) <==>
      Unescape(Token(p)).Some? && Fold(Unescape(Token(p)).value) == Fold(name)
    decreases |p|
  {
    hide Token, Fold;
    TokenCases(p);
    var t := Token(p);
    if name != "" { FoldCons(name); }
    if Unescape(t).Some? && Unescape(t).value != "" { FoldCons(Unescape(t).value); }
    if p == "" || p[0] == '/' {
      FoldEmpty(name);
    } else if p[0] == '~' {
      if |p| >= 2 && (p[1] == '0' || p[1] == '1') && name != "" { MatchTokenIsUnescape(name[1..], p[2..]); }
    } else if name != "" {
      MatchTokenIsUnescape(name[1..], p[1..]);
    }
  }

  lemma FoldEmpty(s: string)
    ensures Fold(s) == "" <==> s == ""
    ensures Fold("") == ""
  {
  }

  /** How a token starts, and what is left of it. */
  lemma TokenCases(p: string)
    ensures p == "" || p[0] == '/' ==> Token(p) == ""
    ensures p != "" && p[0] != '/' ==> var t := Token(p); t != "" && t[0] == p[0] && t[1..] == Token(p[1..])
    ensures |p| >= 2 && p[0] != '/' && p[1] != '/' ==>
      var t := Token(p); |t| >= 2 && t[1] == p[1] && t[2..] == Token(p[2..])
    ensures p != "" && p[0] != '/' && (|p| < 2 || p[1] == '/') ==> |Token(p)| == 1
  {
    if p != "" && p[0] != '/' {
      assert Token(p) == [p[0]] + Token(p[1..]);
      if |p| >= 2 && p[1] != '/' {
        assert p[1..][1..] == p[2..];
        assert Token(p[1..]) == [p[1]] + Token(p[2..]);
      }
    }
  }

  lemma FoldCons(s: string)
    requires s != ""
    ensures Fold(s) == [ToLower(s[0])] + Fold(s[1..])
  {
  }

  // ----- array indices

  const SIZE_LIMIT: nat := 0x1_0000_0000_0000_0000

  /** The digits of a token as the decoder adds them up, in a size_t. */
  function Accumulate(t: string): (n: nat)
    requires forall i :: 0 <= i < |t| ==> t[i] >= '0'
    ensures n < SIZE_LIMIT
  {
    if t == "" then 0 else (10 * Accumulate(t[..|t| - 1]) + DigitValue(t[|t| - 1])) % SIZE_LIMIT
  }

  /**
   * decode_array_index_from_pointer. The loop goes on while characters are at least '0', and tests
   * only the first one against '9'; the empty token decodes to 0.
   */
  function DecodeIndex(t: string): Option<nat> {
    if |t| >= 2 && t[0] == '0' then None
    else if t == "" then Some(0)
    else if t[0] > '9' then None
    else if forall i :: 0 <= i < |t| ==> t[i] >= '0' then Some(Accumulate(t))
    else None
  }

  /** Section 4 of RFC 6901: "0", or digits without a leading zero. */
  function Index(t: string): Option<nat> {
    if t != "" && AllDigits(t) && (|t| > 1 ==> t[0] != '0') then Some(Value(t)) else None
  }

  /** The tokens on which the decoder is right: no leading digit followed by letters, no overflow. */
  predicate RegularToken(t: string) {
    && t != ""
    && ((IsDigit(t[0]) && !(|t| >= 2 && t[0] == '0') && forall i :: 0 <= i < |t| ==> t[i] >= '0') ==>
          AllDigits(t) && Value(t) < SIZE_LIMIT)
  }

  lemma {:induction false} AccumulateIsValue(t: string)
    requires AllDigits(t)
    ensures Accumulate(t) == Value(t) % SIZE_LIMIT
  {
    if t != "" {
      AccumulateIsValue(t[..|t| - 1]);
      var a, v, d := Accumulate(t[..|t| - 1]), Value(t[..|t| - 1]), DigitValue(t[|t| - 1]);
      assert v == SIZE_LIMIT * (v / SIZE_LIMIT) + a;
      ModShift(10 * a + d, 10 * (v / SIZE_LIMIT));
      assert 10 * v + d == 10 * a + d + SIZE_LIMIT * (10 * (v / SIZE_LIMIT));
    }
  }

  lemma ModShift(x: nat, k: nat)
    ensures (x + SIZE_LIMIT * k) % SIZE_LIMIT == x % SIZE_LIMIT
  {
    var q := x / SIZE_LIMIT;
    assert x + SIZE_LIMIT * k == SIZE_LIMIT * (q + k) + x % SIZE_LIMIT;
  }

  /** The decoder agrees with RFC 6901 exactly on regular tokens. */
  lemma DecodeIndexExactlyWhenRegular(t: string)
    ensures DecodeIndex(t) == Index(t) <==> RegularToken(t)
  {
    if t != "" && AllDigits(t) { AccumulateIsValue(t); }
  }

  /** Tokens that are no indices: a digit and a letter, and the empty one. */
  lemma DecodeIndexExamples()
    ensures DecodeIndex("1a") == Some(59) && Index("1a") == None
    ensures DecodeIndex("") == Some(0) && Index("") == None
  {
    hide Accumulate;
    var t := "1a";
    AccumulateStep("");
    AccumulateStep("1");
    AccumulateStep(t);
    assert t[..1] == "1" && "1"[..0] == "" && !IsDigit(t[1]);
  }

  lemma AccumulateStep(t: string)
    requires forall i :: 0 <= i < |t| ==> t[i] >= '0'
    ensures Accumulate(t) ==
      if t == "" then 0 else (10 * Accumulate(t[..|t| - 1]) + DigitValue(t[|t| - 1])) % SIZE_LIMIT
  {
  }

  /** An index that a size_t cannot hold wraps, 2^64 to 0. */
  lemma IndexWraps(n: nat)
    ensures DecodeIndex(Decimal(n)) == Some(n % SIZE_LIMIT) && Index(Decimal(n)) == Some(n)
    ensures SIZE_LIMIT == 18446744073709551616 && DecodeIndex(Decimal(SIZE_LIMIT)) == Some(0)
  {
    hide Decimal, Accumulate, Value;
    forall m: nat ensures DecodeIndex(Decimal(m)) == Some(m % SIZE_LIMIT) {
      DecimalIsIndex(m);
      AccumulateIsValue(Decimal(m));
    }
    DecimalIsIndex(n);
  }

  predicate AtLeastZero(t: string) { forall i :: 0 <= i < |t| ==> t[i] >= '0' }

  /** What the index decoder looks at is the same before and after unescaping tildes. */
  lemma {:induction false} UnescapedCharacters(s: string)
    requires Unescape(s).Some? && '/' !in s && '/' !in Unescape(s).value
    ensures var u := Unescape(s).value;
      && (AtLeastZero(s) <==> AtLeastZero(u))
      && ('~' in s ==> '~' in u)
      && (s != "" ==> u != "" && u[0] == s[0])
    decreases |s|
  {
    hide Unescape;
    UnescapeStep(s);
    if s != "" {
      var k := if s[0] == '~' then 2 else 1;
      UnescapedCharacters(s[k..]);
      var u := Unescape(s).value;
      assert s == s[..k] + s[k..];
      assert u == [s[0]] + Unescape(s[k..]).value;
      AtLeastZeroConcat(s[..k], s[k..]);
      AtLeastZeroConcat([s[0]], Unescape(s[k..]).value);
    }
  }

  lemma AtLeastZeroConcat(a: string, b: string)
    ensures AtLeastZero(a + b) <==> AtLeastZero(a) && AtLeastZero(b)
  {
    assert forall i :: 0 <= i < |a| ==> (a + b)[i] == a[i];
    assert forall i :: 0 <= i < |b| ==> (a + b)[|a| + i] == b[i];
  }

  /** Arrays see a plain token decoded; that makes no index of it and no "-". */
  lemma PlainIndex(t: string)
    requires Plain(t) && RegularToken(t)
    ensures var u := Unescape(t).value;
      DecodeInPlace(t) == u && Token(u) == u && DecodeIndex(u) == Index(t) && (u == "-" <==> t == "-")
  {
    hide Unescape, Settles, DecodeInPlace;
    PlainKey(t);
    if '~' !in t {
      CleanIsPlain(t);
      DecodeIndexExactlyWhenRegular(t);
    } else {
      UnescapedCharacters(t);
      var u := Unescape(t).value;
      assert !AllDigits(t);
      if |u| == 1 { assert u[0] == '~'; }
    }
  }

  /** The decoder turns a plain token into its key, and the key has no slash. */
  lemma PlainKey(t: string)
    requires Plain(t)
    ensures var u := Unescape(t).value; DecodeInPlace(t) == u && '/' !in u && Token(u) == u
  {
    var u := Unescape(t).value;
    DecodeExactlyWhenSettles(t);
    assert t[0..] == t;
    SettlesNoSlash(t, 0, 0);
    TokenOfConcat(u, "");
    assert u + "" == u;
  }

  lemma DecimalIsIndex(n: nat)
    ensures Index(Decimal(n)) == Some(n)
    ensures '/' !in Decimal(n) && '~' !in Decimal(n)
  {
    ValueOfDecimal(n);
  }

  // ----- resolution in cJSON_Utils.c

  /** The first member whose key the token at the start of p names. */
  function FindToken(ms: seq<Member<Json>>, p: string): (i: nat)
    ensures i <= |ms|
    ensures forall k :: 0 <= k < i ==> !MatchToken(ms[k].key, p)
    ensures i < |ms| ==> MatchToken(ms[i].key, p)
  {
    if ms == [] || MatchToken(ms[0].key, p) then 0
    else
      var r := FindToken(ms[1..], p);
      assert forall k :: 1 <= k < |ms| ==> ms[k] == ms[1..][k - 1];
      1 + r
  }

  /** The child that the token at the start of q leads to. */
  function Step(j: Json, q: string): Option<Json> {
    match j
    case Array(items) =>
      var i := DecodeIndex(Token(q));
      if i.Some? && i.value < |items| then Some(items[i.value]) else None
    case Object(ms) =>
      if FindToken(ms, q) < |ms| then Some(ms[FindToken(ms, q)].value) else None
    case _ => None
  }

  /** get_item_from_pointer. */
  function GetItem(j: Json, p: string): Option<Json>
    decreases |p|
  {
    if p == "" || p[0] != '/' then Some(j)
    else match Step(j, p[1..])
      case Some(c) => GetItem(c, Rest(p[1..]))
      case None => None
  }

  /** The tree after the item that p resolves to has been changed into v. */
  function PutItem(j: Json, p: string, v: Json): Json
    requires GetItem(j, p).Some?
    decreases |p|
  {
    if p == "" || p[0] != '/' then v
    else
      var q := p[1..];
      match j
      case Array(items) =>
        var i := DecodeIndex(Token(q)).value;
        Array(items[i := PutItem(items[i], Rest(q), v)])
      case Object(ms) =>
        var i := FindToken(ms, q);
        Object(ms[i := ms[i].(value := PutItem(ms[i].value, Rest(q), v))])
  }

  // ----- resolution in RFC 6901

  function Child(d: Doc, t: string): Option<Doc> {
    match d
    case DArray(items) =>
      var i := Index(t);
      if i.Some? && i.value < |items| then Some(items[i.value]) else None
    case DObject(m) =>
      var k := Unescape(t);
      if k.Some? && Fold(k.value) in m then Some(m[Fold(k.value)]) else None
    case _ => None
  }

  function Get(d: Doc, ts: seq<string>): Option<Doc>
    decreases |ts|
  {
    if ts == [] then Some(d)
    else if Child(d, ts[0]).Some? then Get(Child(d, ts[0]).value, ts[1..])
    else None
  }

  function SetChild(d: Doc, t: string, v: Doc): Doc
    requires Child(d, t).Some?
  {
    match d
    case DArray(items) => DArray(items[Index(t).value := v])
    case DObject(m) => DObject(m[Fold(Unescape(t).value) := v])
  }

  /** The document with the value at ts replaced by v. */
  function Set(d: Doc, ts: seq<string>, v: Doc): Doc
    requires Get(d, ts).Some?
    decreases |ts|
  {
    if ts == [] then v else SetChild(d, ts[0], Set(Child(d, ts[0]).value, ts[1..], v))
  }

  /** Every token met at an array is regular. */
  predicate Regular(d: Doc, ts: seq<string>)
    decreases |ts|
  {
    ts == [] ||
    ((d.DArray? ==> RegularToken(ts[0])) && (Child(d, ts[0]).Some? ==> Regular(Child(d, ts[0]).value, ts[1..])))
  }

  /** No array has as many elements as a size_t can count. */
  predicate Small(d: Doc) {
    match d
    case DArray(items) => |items| < SIZE_LIMIT && forall i :: 0 <= i < |items| ==> Small(items[i])
    case DObject(m) => forall k :: k in m ==> Small(m[k])
    case _ => true
  }

  lemma {:induction false} ResolvedIsRegular(d: Doc, ts: seq<string>)
    requires Small(d) && Get(d, ts).Some?
    ensures Regular(d, ts) && Small(Get(d, ts).value)
    decreases |ts|
  {
    if ts != [] { ResolvedIsRegular(Child(d, ts[0]).value, ts[1..]); }
  }

  function AbsOption(o: Option<Json>): Option<Doc> {
    match o
    case None => None
    case Some(j) => Some(Abs(j))
  }

  lemma FindTokenIsField(ms: seq<Member<Json>>, p: string)
    ensures var i, k := FindToken(ms, p), Unescape(Token(p));
      && (i < |ms| <==> k.Some? && Fold(k.value) in Fields(ms))
      && (i < |ms| ==>
            && Fold(ms[i].key) == Fold(k.value)
            && Fields(ms)[Fold(k.value)] == Abs(ms[i].value)
            && forall l :: 0 <= l < i ==> Fold(ms[l].key) != Fold(ms[i].key))
  {
    var i, k := FindToken(ms, p), Unescape(Token(p));
    forall l | 0 <= l < |ms|
      ensures MatchToken(ms[l].key, p) <==> k.Some? && Fold(k.value) == Fold(ms[l].key)
    {
      MatchTokenIsUnescape(ms[l].key, p);
    }
    if k.Some? { FieldsKeys(ms, Fold(k.value)); }
    if i < |ms| { FieldsAt(ms, i); }
  }

  /** One step of the walk, on the tree and on the document. */
  lemma ChildStep(j: Json, q: string)
    requires Abs(j).DArray? ==> RegularToken(Token(q))
    ensures Child(Abs(j), Token(q)) == AbsOption(Step(j, q))
  {
    match j
    case Array(items) =>
      DecodeIndexExactlyWhenRegular(Token(q));
      assert Abs(j) == DArray(Elements(items));
    case Object(ms) =>
      FindTokenIsField(ms, q);
    case _ =>
  }

  /** Resolution finds what RFC 6901 prescribes, for regular array tokens. */
  lemma {:induction false} GetItemIsGet(j: Json, p: string)
    requires Regular(Abs(j), Tokens(p))
    ensures AbsOption(GetItem(j, p)) == Get(Abs(j), Tokens(p))
    decreases |p|
  {
    if p != "" && p[0] == '/' {
      var q := p[1..];
      ChildStep(j, q);
      var ts := Tokens(p);
      assert ts[0] == Token(q) && ts[1..] == Tokens(Rest(q));
      if Step(j, q).Some? { GetItemIsGet(Step(j, q).value, Rest(q)); }
    }
  }

  lemma {:induction false} GetItemDistinct(j: Json, p: string)
    requires Distinct(j) && GetItem(j, p).Some?
    ensures Distinct(GetItem(j, p).value)
    decreases |p|
  {
    if p != "" && p[0] == '/' { GetItemDistinct(Step(j, p[1..]).value, Rest(p[1..])); }
  }

  lemma DistinctUpdate(ms: seq<Member<Json>>, i: nat, v: Json)
    requires i < |ms| && DistinctMembers(ms) && Distinct(v)
    ensures DistinctMembers(ms[i := ms[i].(value := v)])
  {
    var r := ms[i := ms[i].(value := v)];
    assert forall k :: 0 <= k < |r| ==> r[k].key == ms[k].key;
  }

  lemma PutElementIsSetChild(items: seq<Json>, q: string, w: Json)
    requires Step(Array(items), q).Some? && (Abs(Array(items)).DArray? ==> RegularToken(Token(q)))
    ensures var i := DecodeIndex(Token(q)).value;
      && Child(Abs(Array(items)), Token(q)).Some?
      && Abs(Array(items[i := w])) == SetChild(Abs(Array(items)), Token(q), Abs(w))
  {
    hide RegularToken, Token;
    DecodeIndexExactlyWhenRegular(Token(q));
    var i := DecodeIndex(Token(q)).value;
    assert Abs(Array(items)) == DArray(Elements(items));
    assert Elements(items[i := w]) == Elements(items)[i := Abs(w)];
  }

  lemma PutMemberIsSetChild(ms: seq<Member<Json>>, q: string, w: Json)
    requires Step(Object(ms), q).Some?
    ensures var i := FindToken(ms, q);
      && Child(Abs(Object(ms)), Token(q)).Some?
      && Abs(Object(ms[i := ms[i].(value := w)])) == SetChild(Abs(Object(ms)), Token(q), Abs(w))
  {
    hide MatchToken, Fold, Unescape, Token;
    var i := FindToken(ms, q);
    FindTokenIsField(ms, q);
    FieldsUpdate(ms, i, w);
  }

  lemma {:induction false} PutItemDistinct(j: Json, p: string, v: Json)
    requires GetItem(j, p).Some? && Distinct(j) && Distinct(v)
    ensures Distinct(PutItem(j, p, v))
    decreases |p|
  {
    hide MatchToken, Fold, Token;
    if p != "" && p[0] == '/' {
      var q := p[1..];
      match j
      case Array(items) =>
        PutItemDistinct(items[DecodeIndex(Token(q)).value], Rest(q), v);
      case Object(ms) =>
        var i := FindToken(ms, q);
        PutItemDistinct(ms[i].value, Rest(q), v);
        DistinctUpdate(ms, i, PutItem(ms[i].value, Rest(q), v));
    }
  }

  /** Changing the item p resolves to sets the value at that location and nothing else. */
  lemma {:induction false} PutItemIsSet(j: Json, p: string, v: Json)
    requires Regular(Abs(j), Tokens(p)) && GetItem(j, p).Some?
    ensures Get(Abs(j), Tokens(p)).Some?
    ensures Abs(PutItem(j, p, v)) == Set(Abs(j), Tokens(p), Abs(v))
    ensures Distinct(j) && Distinct(v) ==> Distinct(PutItem(j, p, v))
    decreases |p|
  {
    hide MatchToken, Fold, RegularToken, SetChild, Child, Distinct, Abs;
    GetItemIsGet(j, p);
    if Distinct(j) && Distinct(v) { PutItemDistinct(j, p, v); }
    if p != "" && p[0] == '/' {
      var q := p[1..];
      ChildStep(j, q);
      assert Tokens(p)[0] == Token(q) && Tokens(p)[1..] == Tokens(Rest(q));
      match j
      case Array(items) =>
        var i := DecodeIndex(Token(q)).value;
        PutItemIsSet(items[i], Rest(q), v);
        PutElementIsSetChild(items, q, PutItem(items[i], Rest(q), v));
      case Object(ms) =>
        var i := FindToken(ms, q);
        PutItemIsSet(ms[i].value, Rest(q), v);
        PutMemberIsSetChild(ms, q, PutItem(ms[i].value, Rest(q), v));
    }
  }
}
