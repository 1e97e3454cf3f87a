// JSON string literals: print_string_ptr's escaping, parse_string's two passes, their round trip,
// and the bound that the first pass puts on what the second writes.
module StringCodec {
  import opened Documents
  import opened Unicode

  const QUOTE := '\"'
  const BACKSLASH := '\\'
  const BS := 8 as char
  const FF := 12 as char

  // ----- printing

  /** The letter of a two-character escape. */
  function ShortEscape(c: char): Option<char> {
    if c == QUOTE then Some(QUOTE)
    else if c == BACKSLASH then Some(BACKSLASH)
    else if c == BS then Some('b')
    else if c == FF then Some('f')
    else if c == '\n' then Some('n')
    else if c == '\r' then Some('r')
    else if c == '\t' then Some('t')
    else None
  }

  function HexChar(v: nat): (c: char)
    requires v < 16
    ensures IsHex(c) && HexDigit(c) == v
  {
    if v < 10 then ('0' as int + v) as char else ('a' as int + v - 10) as char
  }

  /** What one character of the text is printed as. */
  function EscapeChar(c: char): (e: string)
    ensures e != ""
  {
    if ShortEscape(c).Some? then [BACKSLASH, ShortEscape(c).value]
    else if c < ' ' then [BACKSLASH, 'u', '0', '0', HexChar(c as int / 16), HexChar(c as int % 16)]
    else [c]
  }

  function EscapeText(s: string): string {
    if s == "" then "" else EscapeChar(s[0]) + EscapeText(s[1..])
  }

  /** print_string_ptr. */
  function Quote(s: string): string { [QUOTE] + EscapeText(s) + [QUOTE] }

  // ----- the first pass

  /** The distance to the closing quote, stepping over backslash pairs; None if there is none. */
  function Scan(t: string): (r: Option<nat>)
    ensures r.Some? ==> r.value < |t| && t[r.value] == QUOTE
    decreases |t|
  {
    if t == "" then None
    else if t[0] == QUOTE then Some(0)
    else if t[0] != BACKSLASH then Beyond(1, Scan(t[1..]))
    else if |t| < 2 then None
    else Beyond(2, Scan(t[2..]))
  }

  function Beyond(k: nat, r: Option<nat>): Option<nat> { if r.None? then None else Some(r.value + k) }

  /** The pairs the first pass sees starting among the next n characters; mid: the first of them ends a pair. */
  function Pairs(t: string, n: int, mid: bool): nat
    requires n <= |t|
    decreases |t|
  {
    if n <= 0 then 0
    else if !mid && t[0] == BACKSLASH then 1 + Pairs(t[1..], n - 1, true)
    else Pairs(t[1..], n - 1, false)
  }

  /** The number of backslashes the first pass skips over on its way to the closing quote. */
  function Skipped(t: string): nat
    requires Scan(t).Some?
  {
    Pairs(t, Scan(t).value, false)
  }

  /** Both results of the first pass: the distance, and the number of backslashes stepped over. */
  function FirstPass(t: string): Option<(nat, nat)>
    decreases |t|
  {
    if t == "" then None
    else if t[0] == QUOTE then Some((0, 0))
    else if t[0] != BACKSLASH then Further(FirstPass(t[1..]), 1, 0)
    else if |t| < 2 then None
    else Further(FirstPass(t[2..]), 2, 1)
  }

  function Further(r: Option<(nat, nat)>, k: nat, m: nat): Option<(nat, nat)> {
    match r
    case None => None
    case Some((end, skipped)) => Some((end + k, skipped + m))
  }

  lemma FirstPassStep(t: string)
    requires t != "" && t[0] != QUOTE
    ensures FirstPass(t) ==
      if t[0] != BACKSLASH then Further(FirstPass(t[1..]), 1, 0)
      else if |t| < 2 then None
      else Further(FirstPass(t[2..]), 2, 1)
  {
  }

  lemma ScanStep(t: string)
    requires t != "" && t[0] != QUOTE
    ensures Scan(t) ==
      if t[0] != BACKSLASH then Beyond(1, Scan(t[1..]))
      else if |t| < 2 then None
      else Beyond(2, Scan(t[2..]))
  {
  }

  lemma PairsStep(t: string, n: nat)
    requires 0 < n <= |t|
    ensures t[0] != BACKSLASH ==> Pairs(t, n, false) == Pairs(t[1..], n - 1, false)
    ensures t[0] == BACKSLASH && n >= 2 ==> Pairs(t, n, false) == 1 + Pairs(t[2..], n - 2, false)
  {
    if t[0] == BACKSLASH && n >= 2 {
      assert Pairs(t[1..], n - 1, true) == Pairs(t[1..][1..], n - 2, false);
      assert t[1..][1..] == t[2..];
    }
  }

  lemma FirstPassEnds(t: string)
    requires t == "" || t[0] == QUOTE
    ensures FirstPass(t) == if Scan(t).Some? then Some((Scan(t).value, Skipped(t))) else None
  {
  }

  lemma {:induction false} FirstPassIsScan(t: string)
    ensures FirstPass(t) == if Scan(t).Some? then Some((Scan(t).value, Skipped(t))) else None
    decreases |t|
  {
    hide Scan, FirstPass, Pairs;
    if t == "" || t[0] == QUOTE {
      FirstPassEnds(t);
    } else {
      FirstPassStep(t);
      ScanStep(t);
      var k := if t[0] == BACKSLASH then 2 else 1;
      if k <= |t| {
        FirstPassIsScan(t[k..]);
        if Scan(t).Some? { PairsStep(t, Scan(t).value); }
      }
    }
  }

  // ----- the second pass

  /** The decoded bytes, or the rest of the text at the offending escape. */
  datatype Decoded = Decoded(out: string) | Bad(at: string)

  function Prepend(s: string, d: Decoded): Decoded {
    match d
    case Decoded(out) => Decoded(s + out)
    case Bad(at) => d
  }

  /** The character a two-character escape stands for. */
  function Unescaped(c: char): Option<char> {
    if c == 'b' then Some(BS)
    else if c == 'f' then Some(FF)
    else if c == 'n' then Some('\n')
    else if c == 'r' then Some('\r')
    else if c == 't' then Some('\t')
    else if c == QUOTE || c == BACKSLASH || c == '/' then Some(c)
    else None
  }

  /** What the next character or escape stands for, and how many characters it takes. */
  function Unit(t: string, n: int): (r: Option<(string, nat)>)
    requires 0 < n < |t|
    ensures r.Some? ==> r.value.1 in {1, 2, 6, 12} && r.value.1 <= n + 1
    ensures r.Some? && r.value.1 == 1 ==> t[0] != BACKSLASH && |r.value.0| == 1
    ensures r.Some? && r.value.1 != 1 ==> 2 * |r.value.0| <= r.value.1
    ensures r.Some? && r.value.1 > 2 ==> r.value.1 <= n
  {
    if t[0] != BACKSLASH then Some(([t[0]], 1))
    else if t[1] == 'u' then
      match ReadLiteral(t, n)
      case None => None
      case Some(l) => Some((Utf8(l.code), l.length))
    else match Unescaped(t[1])
      case None => None
      case Some(c) => Some(([c], 2))
  }

  /** Decodes n characters; an escape that starts on the last of them takes the closing quote along. */
  function Decode(t: string, n: int): Decoded
    requires n < |t|
    decreases |t|
  {
    if n <= 0 then Decoded("")
    else match Unit(t, n)
      case None => Bad(t)
      case Some((bytes, k)) => Prepend(bytes, Decode(t[k..], n - k))
  }

  /** The number of bytes that decoding writes until it ends or fails. */
  function Written(t: string, n: int): nat
    requires n < |t|
    decreases |t|
  {
    if n <= 0 then 0
    else match Unit(t, n)
      case None => 0
      case Some((bytes, k)) => |bytes| + Written(t[k..], n - k)
  }

  lemma WrittenStep(t: string, n: int)
    requires 0 < n < |t|
    ensures Unit(t, n).None? ==> Written(t, n) == 0
    ensures Unit(t, n).Some? ==> var (bytes, k) := Unit(t, n).value;
      Written(t, n) == |bytes| + (if k <= n then Written(t[k..], n - k) else 0)
  {
  }

  lemma {:induction false} WrittenIsDecoded(t: string, n: int)
    requires n < |t| && Decode(t, n).Decoded?
    ensures |Decode(t, n).out| == Written(t, n)
    decreases |t|
  {
    if n > 0 {
      DecodeStep(t, n);
      WrittenStep(t, n);
      hide Decode, Written, Unit;
      var k := Unit(t, n).value.1;
      if k <= n { WrittenIsDecoded(t[k..], n - k); }
    }
  }

  lemma DecodeStep(t: string, n: int)
    requires 0 < n < |t|
    ensures Unit(t, n).None? ==> Decode(t, n) == Bad(t)
    ensures Unit(t, n).Some? ==> var k := Unit(t, n).value.1;
      Decode(t, n) == Prepend(Unit(t, n).value.0, if k <= n then Decode(t[k..], n - k) else Decoded(""))
  {
  }

  // ----- round trip

  lemma {:induction false} EscapedIsRead(s: string, rest: string)
    ensures Scan(EscapeText(s) + [QUOTE] + rest) == Some(|EscapeText(s)|)
    ensures Decode(EscapeText(s) + [QUOTE] + rest, |EscapeText(s)|) == Decoded(s)
  {
    hide Scan, Decode, EscapeChar, EscapeText;
    EscapedText(s, rest);
    if s == "" {
      EmptyIsRead(rest);
    } else {
      EscapedIsRead(s[1..], rest);
      CharIsRead(s[0], EscapeText(s[1..]) + [QUOTE] + rest);
      assert s == [s[0]] + s[1..];
    }
  }

  lemma EscapedText(s: string, rest: string)
    ensures s == "" ==> EscapeText(s) + [QUOTE] + rest == [QUOTE] + rest
    ensures s != "" ==>
      && |EscapeText(s)| == |EscapeChar(s[0])| + |EscapeText(s[1..])|
      && EscapeText(s) + [QUOTE] + rest == EscapeChar(s[0]) + (EscapeText(s[1..]) + [QUOTE] + rest)
  {
    hide EscapeText, EscapeChar;
    EscapeTextStep(s);
    if s != "" { BehindFirst(EscapeChar(s[0]), EscapeText(s[1..]), [QUOTE], rest); }
  }

  lemma EscapeTextStep(s: string)
    ensures EscapeText(s) == if s == "" then "" else EscapeChar(s[0]) + EscapeText(s[1..])
  {
  }

  lemma BehindFirst(a: string, b: string, c: string, d: string)
    ensures (a + b) + c + d == a + (b + c + d)
  {
  }

  lemma EmptyIsRead(rest: string)
    ensures EscapeText("") == "" && Scan([QUOTE] + rest) == Some(0) && Decode([QUOTE] + rest, 0) == Decoded("")
  {
  }

  lemma UnitOfCharacter(t: string, n: int)
    requires 0 < n < |t|
    ensures t[0] != BACKSLASH ==> Unit(t, n) == Some(([t[0]], 1))
    ensures t[0] == BACKSLASH && t[1] != 'u' && Unescaped(t[1]).Some? ==> Unit(t, n) == Some(([Unescaped(t[1]).value], 2))
  {
  }

  lemma ShortIsRead(c: char, l: char, u: string)
    requires Unescaped(l) == Some(c) && l != 'u' && Scan(u).Some?
    ensures Scan([BACKSLASH, l] + u) == Some(Scan(u).value + 2)
    ensures Decode([BACKSLASH, l] + u, 2 + Scan(u).value) == Prepend([c], Decode(u, Scan(u).value))
  {
    hide Scan, Decode, Unit;
    ScanPair(l, u);
    var t := [BACKSLASH, l] + u;
    assert t[0] == BACKSLASH && t[1] == l && t[2..] == u;
    UnitOfCharacter(t, 2 + Scan(u).value);
    DecodeStep(t, 2 + Scan(u).value);
  }

  lemma PlainIsRead(c: char, u: string)
    requires c != QUOTE && c != BACKSLASH && Scan(u).Some?
    ensures Scan([c] + u) == Some(Scan(u).value + 1)
    ensures Decode([c] + u, 1 + Scan(u).value) == Prepend([c], Decode(u, Scan(u).value))
  {
    hide Scan, Decode, Unit;
    ScanPlain(c, u);
    var t := [c] + u;
    assert t[0] == c && t[1..] == u;
    UnitOfCharacter(t, 1 + Scan(u).value);
    DecodeStep(t, 1 + Scan(u).value);
  }

  lemma EscapeCases(c: char)
    ensures ShortEscape(c).Some? ==>
      var l := ShortEscape(c).value; EscapeChar(c) == [BACKSLASH, l] && l != 'u' && Unescaped(l) == Some(c)
    ensures ShortEscape(c).None? && c >= ' ' ==> EscapeChar(c) == [c] && c != QUOTE && c != BACKSLASH
  {
  }

  /** Both passes step over a printed character. */
  lemma CharIsRead(c: char, u: string)
    requires Scan(u).Some?
    ensures var e, m := EscapeChar(c), Scan(u).value;
      && Scan(e + u) == Some(|e| + m)
      && Decode(e + u, |e| + m) == Prepend([c], Decode(u, m))
  {
    hide Scan, Decode, EscapeChar;
    EscapeCases(c);
    if ShortEscape(c).Some? {
      ShortIsRead(c, ShortEscape(c).value, u);
    } else if c < ' ' {
      ControlIsRead(c, u);
    } else {
      PlainIsRead(c, u);
    }
  }

  /** A \u00XX escape: both passes step over it, and it stands for its character. */
  lemma ControlIsRead(c: char, u: string)
    requires c < ' ' && ShortEscape(c).None? && Scan(u).Some?
    ensures var e := EscapeChar(c);
      && |e| == 6 && Scan(e + u) == Some(Scan(u).value + 6)
      && Decode(e + u, 6 + Scan(u).value) == Prepend([c], Decode(u, Scan(u).value))
  {
    hide Scan, Decode, Unit;
    var hi, lo := HexChar(c as int / 16), HexChar(c as int % 16);
    var t := [BACKSLASH, 'u', '0', '0', hi, lo] + u;
    assert t[6..] == u;
    ControlIsScanned(hi, lo, u);
    ControlUnit(c, u, 6 + Scan(u).value);
    DecodeStep(t, 6 + Scan(u).value);
  }

  lemma ControlIsScanned(hi: char, lo: char, u: string)
    requires IsHex(hi) && IsHex(lo) && Scan(u).Some?
    ensures Scan([BACKSLASH, 'u', '0', '0', hi, lo] + u) == Some(Scan(u).value + 6)
  {
    hide Scan;
    LiteralIsScanned(['0', '0', hi, lo], u);
    assert [BACKSLASH, 'u', '0', '0', hi, lo] == "\\u" + ['0', '0', hi, lo];
  }

  /** The first pass steps over a literal of four hexadecimal digits. */
  lemma LiteralIsScanned(h: string, u: string)
    requires |h| == 4 && (forall i :: 0 <= i < 4 ==> IsHex(h[i])) && Scan(u).Some?
    ensures Scan("\\u" + h + u) == Some(Scan(u).value + 6)
  {
    hide Scan;
    ScanRun(h, u);
    ScanPair('u', h + u);
    LiteralSplit(h, u);
  }

  lemma LiteralSplit(h: string, u: string)
    ensures [BACKSLASH, 'u'] + (h + u) == "\\u" + h + u
  {
  }

  lemma {:induction false} ScanRun(t: string, u: string)
    requires (forall i :: 0 <= i < |t| ==> t[i] != QUOTE && t[i] != BACKSLASH) && Scan(u).Some?
    ensures Scan(t + u) == Some(Scan(u).value + |t|)
  {
    hide Scan;
    if t == "" {
      assert t + u == u;
    } else {
      ScanRun(t[1..], u);
      ScanPlain(t[0], t[1..] + u);
      assert [t[0]] + (t[1..] + u) == t + u;
    }
  }

  lemma ScanPair(c: char, u: string)
    requires Scan(u).Some?
    ensures Scan([BACKSLASH, c] + u) == Some(Scan(u).value + 2)
  {
    hide Scan;
    var t := [BACKSLASH, c] + u;
    assert t[0] == BACKSLASH && t[2..] == u;
    ScanStep(t);
  }

  lemma ControlUnit(c: char, u: string, n: int)
    requires c < ' ' && 6 <= n < 6 + |u|
    ensures Unit([BACKSLASH, 'u', '0', '0', HexChar(c as int / 16), HexChar(c as int % 16)] + u, n) == Some(([c], 6))
  {
    var hi, lo := HexChar(c as int / 16), HexChar(c as int % 16);
    var t := [BACKSLASH, 'u', '0', '0', hi, lo] + u;
    assert t[2..6] == ['0', '0', hi, lo];
    assert ParseHex4(['0', '0', hi, lo]) == c as int;
    assert ReadLiteral(t, n) == Some(Literal(c as int, 6));
    assert Utf8(c as int) == [c];
  }

  lemma ScanPlain(c: char, u: string)
    requires c != QUOTE && c != BACKSLASH && Scan(u).Some?
    ensures Scan([c] + u) == Some(Scan(u).value + 1)
  {
    hide Scan;
    var t := [c] + u;
    assert t[0] == c && t[1..] == u;
    ScanStep(t);
  }

  // ----- the estimate

  /** After k characters the first pass is again inside a pair, or not. */
  function MidAfter(t: string, k: nat, mid: bool): bool
    requires k <= |t|
  {
    if k == 0 then mid else MidAfter(t[1..], k - 1, !mid && t[0] == BACKSLASH)
  }

  /** Of any two neighbouring characters at most one starts a pair. */
  lemma TwoCharacters(t: string, n: int, mid: bool)
    requires n <= |t| && |t| >= 2
    ensures Pairs(t, n, mid) <= 1 + Pairs(t[2..], n - 2, MidAfter(t, 2, mid))
  {
    assert t[1..][1..] == t[2..];
    assert MidAfter(t, 2, mid) == MidAfter(t[1..], 1, !mid && t[0] == BACKSLASH);
    assert MidAfter(t[1..], 1, !mid && t[0] == BACKSLASH) == MidAfter(t[2..], 0, !(!mid && t[0] == BACKSLASH) && t[1] == BACKSLASH);
  }

  lemma {:induction false} EvenCharacters(t: string, n: int, mid: bool, k: nat)
    requires n <= |t| && 2 * k <= |t|
    ensures Pairs(t, n, mid) <= k + Pairs(t[2 * k..], n - 2 * k, MidAfter(t, 2 * k, mid))
  {
    if k == 0 {
      assert t[0..] == t;
    } else {
      TwoCharacters(t, n, mid);
      EvenCharacters(t[2..], n - 2, MidAfter(t, 2, mid), k - 1);
      assert t[2..][2 * (k - 1)..] == t[2 * k..];
      MidAfterSplit(t, 2, 2 * (k - 1), mid);
    }
  }

  lemma {:induction false} MidAfterSplit(t: string, j: nat, k: nat, mid: bool)
    requires j + k <= |t|
    ensures MidAfter(t, j + k, mid) == MidAfter(t[j..], k, MidAfter(t, j, mid))
  {
    if j > 0 {
      MidAfterSplit(t[1..], j - 1, k, !mid && t[0] == BACKSLASH);
      assert t[1..][j - 1..] == t[j..];
    } else {
      assert t[0..] == t;
    }
  }

  /** Where the first pass stands, seen from the second, n characters before the closing quote. */
  predicate InStep(t: string, n: int, mid: bool) {
    if n < 0 then true
    else if mid then n >= 1 && |t| >= 1 && Scan(t[1..]) == Some(n - 1 as nat)
    else Scan(t) == Some(n as nat)
  }

  lemma InStepOnce(t: string, n: int, mid: bool)
    requires 0 < n < |t| && InStep(t, n, mid)
    ensures InStep(t[1..], n - 1, !mid && t[0] == BACKSLASH)
  {
    if !mid {
      ScanStep(t);
      if t[0] == BACKSLASH { assert t[1..][1..] == t[2..]; }
    }
  }

  lemma {:induction false} StepsOn(t: string, n: int, mid: bool, k: nat)
    requires n < |t| && InStep(t, n, mid) && k <= n
    ensures InStep(t[k..], n - k, MidAfter(t, k, mid))
  {
    if k == 0 {
      assert t[0..] == t;
    } else {
      hide InStep;
      var m := !mid && t[0] == BACKSLASH;
      InStepOnce(t, n, mid);
      StepsOn(t[1..], n - 1, m, k - 1);
      assert t[1..][k - 1..] == t[k..];
    }
  }

  lemma PlainStep(t: string, n: int, mid: bool)
    requires 0 < n < |t| && InStep(t, n, mid) && t[0] != BACKSLASH
    ensures InStep(t[1..], n - 1, MidAfter(t, 1, mid))
    ensures Pairs(t, n, mid) == Pairs(t[1..], n - 1, MidAfter(t, 1, mid))
  {
    assert MidAfter(t, 1, mid) == MidAfter(t[1..], 0, false);
  }

  lemma EscapeStep(t: string, n: int, mid: bool, h: nat)
    requires 0 < n < |t| && InStep(t, n, mid) && 2 * h <= n + 1
    ensures InStep(t[2 * h..], n - 2 * h, MidAfter(t, 2 * h, mid))
    ensures Pairs(t, n, mid) <= h + Pairs(t[2 * h..], n - 2 * h, MidAfter(t, 2 * h, mid))
  {
    hide Pairs, MidAfter;
    EvenCharacters(t, n, mid, h);
    if 2 * h <= n { StepsOn(t, n, mid, 2 * h); }
  }

  /** One unit of the second pass: the count of the first pass falls by what is not written. */
  lemma UnitStep(t: string, n: int, mid: bool, bytes: string, k: nat)
    requires 0 < n < |t| && InStep(t, n, mid) && Unit(t, n) == Some((bytes, k))
    ensures InStep(t[k..], n - k, MidAfter(t, k, mid))
    ensures |bytes| + Pairs(t, n, mid) <= k + Pairs(t[k..], n - k, MidAfter(t, k, mid))
  {
    hide InStep, Pairs, MidAfter;
    if k == 1 { PlainStep(t, n, mid); } else { EscapeStep(t, n, mid, k / 2); }
  }

  lemma {:induction false} PairsBelow(t: string, n: int, mid: bool)
    requires n <= |t|
    ensures n > 0 ==> Pairs(t, n, mid) <= n
    ensures n <= 0 ==> Pairs(t, n, mid) == 0
    decreases |t|
  {
    if n > 0 {
      if !mid && t[0] == BACKSLASH {
        PairsBelow(t[1..], n - 1, true);
      } else {
        PairsBelow(t[1..], n - 1, false);
      }
    }
  }

  /** An escape that takes the closing quote along starts where the first pass is inside a pair. */
  lemma LastUnit(t: string, mid: bool)
    requires |t| > 1 && t[0] == BACKSLASH && InStep(t, 1, mid)
    ensures Pairs(t, 1, mid) == 0
  {
    if !mid { ScanStep(t); }
  }

  /**
   * However far the second pass is out of step with the first (mid), and wherever it fails, it
   * writes at most one byte per character left, less one for every pair the first pass still counts.
   */
  lemma {:induction false} DecodeBound(t: string, n: nat, mid: bool)
    requires n < |t| && InStep(t, n, mid)
    ensures Written(t, n) + Pairs(t, n, mid) <= n
    decreases |t|
  {
    hide Pairs, InStep, MidAfter, Written, Unit;
    PairsBelow(t, n, mid);
    if n > 0 {
      WrittenStep(t, n);
      if Unit(t, n).Some? {
        var u := Unit(t, n).value;
        if u.1 <= n {
          UnitStep(t, n, mid, u.0, u.1);
          DecodeBound(t[u.1..], n - u.1, MidAfter(t, u.1, mid));
        } else {
          LastBound(t, n, mid);
        }
      }
    } else {
      NothingWritten(t);
    }
  }

  lemma LastBound(t: string, n: nat, mid: bool)
    requires 0 < n < |t| && InStep(t, n, mid) && Unit(t, n).Some? && Unit(t, n).value.1 > n
    ensures Written(t, n) + Pairs(t, n, mid) <= n
  {
    hide Pairs, InStep;
    WrittenStep(t, n);
    LastUnit(t, mid);
  }

  lemma NothingWritten(t: string)
    requires t != ""
    ensures Written(t, 0) == 0
  {
  }

  /**
   * The buffer that the first pass asks for, content length plus one, less the backslashes, plus
   * one for the terminator, has room for all bytes of the second pass and the terminator, whatever
   * the text is and however its decoding ends.
   */
  lemma AllocationSuffices(t: string)
    requires Scan(t).Some?
    ensures Written(t, Scan(t).value) + 1 < (Scan(t).value + 1 - Skipped(t)) + 1
  {
    DecodeBound(t, Scan(t).value, false);
  }

  // ----- when an escape takes the closing quote along

  /** The second pass reads on behind the n characters in front of the closing quote. */
  predicate Overruns(t: string, n: int)
    requires n < |t|
    decreases |t|
  {
    if n <= 0 then n < 0
    else Unit(t, n).Some? && Overruns(t[Unit(t, n).value.1..], n - Unit(t, n).value.1)
  }

  /** An odd number of backslashes, and nothing else, up to the closing quote. */
  predicate OddRun(t: string, n: int)
    requires n < |t|
  {
    n % 2 == 1 && n > 0 && forall i :: 0 <= i < n ==> t[i] == BACKSLASH
  }

  /** Some literal that the second pass reads has only an odd run of backslashes behind it. */
  predicate LiteralBeforeOddRun(t: string, n: int)
    requires n < |t|
    decreases |t|
  {
    n > 0 && Unit(t, n).Some? &&
      var k := Unit(t, n).value.1;
      k <= n && ((k >= 6 && OddRun(t[k..], n - k)) || LiteralBeforeOddRun(t[k..], n - k))
  }

  lemma OverrunsStep(t: string, n: int)
    requires 0 < n < |t|
    ensures Unit(t, n).None? ==> !Overruns(t, n) && !LiteralBeforeOddRun(t, n)
    ensures Unit(t, n).Some? ==> var k := Unit(t, n).value.1;
      && (k > n ==> Overruns(t, n) && !LiteralBeforeOddRun(t, n))
      && (k <= n ==>
            && (Overruns(t, n) <==> Overruns(t[k..], n - k))
            && (LiteralBeforeOddRun(t, n) <==>
                  (k >= 6 && OddRun(t[k..], n - k)) || LiteralBeforeOddRun(t[k..], n - k)))
  {
    hide OddRun, Unit;
  }

  lemma QuoteAhead(t: string, n: nat, mid: bool)
    requires n < |t| && InStep(t, n, mid)
    ensures t[n] == QUOTE
  {
  }

  /** The first pass steps over a quote that an odd run of backslashes escapes. */
  lemma {:induction false} OddRunHidesQuote(t: string, n: nat)
    requires n < |t| && OddRun(t, n)
    ensures Scan(t) != Some(n)
  {
    hide Scan;
    ScanStep(t);
    if n > 1 { OddRunHidesQuote(t[2..], n - 2); }
  }

  /** The unit at an odd run is an escaped backslash, or the escaped closing quote. */
  lemma OddRunUnit(t: string, n: nat)
    requires n < |t| && OddRun(t, n) && t[n] == QUOTE
    ensures Unit(t, n) == Some(([t[1]], 2))
    ensures n > 1 ==> t[1] == BACKSLASH && OddRun(t[2..], n - 2)
  {
    assert t[1] == BACKSLASH || t[1] == QUOTE;
  }

  lemma MidAfterOne(t: string, mid: bool)
    requires t != ""
    ensures MidAfter(t, 1, mid) == (!mid && t[0] == BACKSLASH)
  {
    assert MidAfter(t, 1, mid) == MidAfter(t[1..], 0, !mid && t[0] == BACKSLASH);
  }

  lemma MidAfterTwo(t: string, mid: bool)
    requires |t| >= 2 && t[0] == BACKSLASH
    ensures MidAfter(t, 2, mid) == (mid && t[1] == BACKSLASH)
  {
    hide MidAfter;
    MidAfterOne(t, mid);
    MidAfterOne(t[1..], !mid);
    MidAfterSplit(t, 1, 1, mid);
  }

  /** An odd run, two characters further on. */
  lemma OddRunShorter(t: string, n: nat)
    requires 2 <= n < |t| && t[0] == BACKSLASH
    ensures OddRun(t, n) <==> t[1] == BACKSLASH && OddRun(t[2..], n - 2)
  {
    if t[1] == BACKSLASH && OddRun(t[2..], n - 2) {
      forall i | 0 <= i < n ensures t[i] == BACKSLASH { if i >= 2 { assert t[2..][i - 2] == t[i]; } }
    }
  }

  /**
   * From a place where the first pass is inside a pair (mid) or not, the second pass takes the
   * closing quote along exactly when only an odd run of backslashes is left and the first of them
   * ends a pair, or when such a run stands behind a literal.
   */
  lemma {:induction false} OverrunsExactly(t: string, n: nat, mid: bool)
    requires n < |t| && InStep(t, n, mid)
    ensures Overruns(t, n) <==> (mid && OddRun(t, n)) || LiteralBeforeOddRun(t, n)
    decreases |t|
  {
    hide Overruns, LiteralBeforeOddRun, Unit, MidAfter, InStep, OddRun;
    QuoteAhead(t, n, mid);
    if n == 0 {
      NothingOverruns(t);
    } else {
      OverrunsStep(t, n);
      OddRunStarts(t, n);
      if Unit(t, n).Some? {
        var k := Unit(t, n).value.1;
        UnitShape(t, n);
        if k <= n {
          StepsOn(t, n, mid, k);
          OverrunsExactly(t[k..], n - k, MidAfter(t, k, mid));
          BehindUnit(t, n, mid, k);
        } else {
          SingleEscape(t, mid);
        }
      }
    }
  }

  lemma NothingOverruns(t: string)
    requires t != ""
    ensures !Overruns(t, 0) && !LiteralBeforeOddRun(t, 0) && !OddRun(t, 0)
  {
  }

  lemma OddRunStarts(t: string, n: nat)
    requires 0 < n < |t| && t[n] == QUOTE
    ensures OddRun(t, n) ==> t[0] == BACKSLASH && Unit(t, n).Some? && Unit(t, n).value.1 == 2
  {
    if OddRun(t, n) { OddRunUnit(t, n); }
  }

  /** The last character starts an escape only where the first pass is inside a pair. */
  lemma SingleEscape(t: string, mid: bool)
    requires |t| > 1 && t[0] == BACKSLASH && InStep(t, 1, mid)
    ensures mid && OddRun(t, 1)
  {
    if !mid { ScanStep(t); }
  }

  /** How an odd run is seen behind a unit. */
  lemma BehindUnit(t: string, n: nat, mid: bool, k: nat)
    requires 0 < k <= n < |t| && k in {1, 2, 6, 12} && (k == 1 <==> t[0] != BACKSLASH)
    requires InStep(t[k..], n - k, MidAfter(t, k, mid)) && (OddRun(t, n) ==> k == 2)
    ensures k < 6 ==> (MidAfter(t, k, mid) && OddRun(t[k..], n - k) <==> mid && OddRun(t, n))
    ensures k >= 6 && OddRun(t[k..], n - k) ==> MidAfter(t, k, mid)
  {
    if k == 1 {
      MidAfterOne(t, mid);
    } else if k == 2 {
      MidAfterTwo(t, mid);
      OddRunShorter(t, n);
    } else if OddRun(t[k..], n - k) {
      OddRunHidesQuote(t[k..], n - k);
    }
  }

  /**
   * The second pass takes the closing quote along if and only if one of its literals is followed,
   * up to that quote, by an odd number of backslashes and nothing else.
   */
  lemma OverrunsExactlyBehindLiterals(t: string)
    requires Scan(t).Some?
    ensures Overruns(t, Scan(t).value) <==> LiteralBeforeOddRun(t, Scan(t).value)
  {
    OverrunsExactly(t, Scan(t).value, false);
  }

  /** Every literal of the text has its four hexadecimal digits. */
  predicate FullLiterals(t: string, n: int)
    requires n < |t|
    decreases |t|
  {
    n > 0 && Unit(t, n).Some? ==>
      var k := Unit(t, n).value.1;
      && (k >= 6 ==> forall i :: 2 <= i < 6 ==> IsHex(t[i]))
      && (k == 12 ==> forall i :: 8 <= i < 12 ==> IsHex(t[i]))
      && (k <= n ==> FullLiterals(t[k..], n - k))
  }

  /** From every unit on, the first pass still ends at the closing quote the second pass runs to. */
  predicate Together(t: string, n: int)
    requires n < |t|
    decreases |t|
  {
    if n <= 0 then n == 0 && t[0] == QUOTE
    else
      && Scan(t) == Some(n as nat)
      && (Unit(t, n).Some? ==> Unit(t, n).value.1 <= n && Together(t[Unit(t, n).value.1..], n - Unit(t, n).value.1))
  }

  /** Then the passes stay in step: no literal ends inside a pair of the first pass. */
  lemma {:induction false} FullLiteralsStayTogether(t: string, n: nat)
    requires n < |t| && Scan(t) == Some(n) && FullLiterals(t, n)
    ensures Together(t, n) && !LiteralBeforeOddRun(t, n)
    decreases |t|
  {
    hide Scan, Unit, LiteralBeforeOddRun, OddRun;
    if n == 0 {
      ScanEnd(t);
      NothingOverruns(t);
    } else {
      OverrunsStep(t, n);
      if Unit(t, n).Some? {
        var k := Unit(t, n).value.1;
        FullUnit(t, n, k);
        FullLiteralsStayTogether(t[k..], n - k);
        if OddRun(t[k..], n - k) { OddRunHidesQuote(t[k..], n - k); }
      }
    }
  }

  /** So no escape takes the closing quote along. */
  lemma FullLiteralsStayInStep(t: string)
    requires Scan(t).Some? && FullLiterals(t, Scan(t).value)
    ensures Together(t, Scan(t).value) && !Overruns(t, Scan(t).value)
  {
    FullLiteralsStayTogether(t, Scan(t).value);
    OverrunsExactlyBehindLiterals(t);
  }

  lemma ScanEnd(t: string)
    requires Scan(t) == Some(0)
    ensures t[0] == QUOTE
  {
  }

  lemma UnitShape(t: string, n: int)
    requires 0 < n < |t| && Unit(t, n).Some?
    ensures Unit(t, n).value.1 != 1 ==> t[0] == BACKSLASH
    ensures Unit(t, n).value.1 == 12 ==> t[6] == BACKSLASH
  {
  }

  lemma {:induction false} PlainRun(t: string, k: nat)
    requires k <= |t| && forall i :: 0 <= i < k ==> t[i] != BACKSLASH
    ensures !MidAfter(t, k, false)
  {
    if k > 0 { PlainRun(t[1..], k - 1); }
  }

  lemma PairPassed(t: string)
    requires |t| >= 2 && t[0] == BACKSLASH
    ensures !MidAfter(t, 2, false)
  {
    assert MidAfter(t, 2, false) == MidAfter(t[1..], 1, true) == MidAfter(t[1..][1..], 0, false);
  }

  lemma LiteralPassed(t: string)
    requires |t| >= 6 && t[0] == BACKSLASH && forall i :: 2 <= i < 6 ==> IsHex(t[i])
    ensures !MidAfter(t, 6, false)
  {
    hide MidAfter;
    PairPassed(t);
    PlainRun(t[2..], 4);
    MidAfterSplit(t, 2, 4, false);
  }

  /** The first pass steps over a unit with full literals as the second does. */
  lemma FullUnit(t: string, n: nat, k: nat)
    requires 0 < n < |t| && Scan(t) == Some(n) && Unit(t, n).Some? && k == Unit(t, n).value.1
    requires k >= 6 ==> forall i :: 2 <= i < 6 ==> IsHex(t[i])
    requires k == 12 ==> forall i :: 8 <= i < 12 ==> IsHex(t[i])
    ensures k <= n && Scan(t[k..]) == Some(n - k)
  {
    hide Unit, MidAfter, Scan;
    UnitShape(t, n);
    if k > n { ScanStep(t); }
    StepsOn(t, n, false, k);
    if k == 1 {
      PlainRun(t, 1);
    } else if k == 2 {
      PairPassed(t);
    } else {
      LiteralPassed(t);
      if k == 12 {
        assert forall i :: 2 <= i < 6 ==> t[6..][i] == t[6 + i];
        LiteralPassed(t[6..]);
        MidAfterSplit(t, 6, 6, false);
      }
    }
  }

  /** The two passes can disagree: here the second reads the closing quote as an escaped character. */
  lemma PassesOutOfStep()
    ensures var t := "\\u123\\\\\"";
      Scan(t) == Some(7) && Decode(t, 7) == Decoded("\0\"") && LiteralBeforeOddRun(t, 7) && Overruns(t, 7)
  {
    hide Scan, Decode, Overruns, LiteralBeforeOddRun;
    OutOfStepScan();
    OutOfStepDecode();
    OverrunsExactlyBehindLiterals("\\u123\\\\\"");
  }

  lemma OutOfStepScan()
    ensures Scan("\\u123\\\\\"") == Some(7)
  {
    hide Scan;
    assert [QUOTE] + "" == "\"" && [BACKSLASH, BACKSLASH] + "\"" == "\\\\\"" && ['3'] + "\\\\\"" == "3\\\\\"";
    assert ['2'] + "3\\\\\"" == "23\\\\\"" && ['1'] + "23\\\\\"" == "123\\\\\"";
    assert [BACKSLASH, 'u'] + "123\\\\\"" == "\\u123\\\\\"";
    ScanQuote("");
    ScanPair(BACKSLASH, "\"");
    ScanPlain('3', "\\\\\"");
    ScanPlain('2', "3\\\\\"");
    ScanPlain('1', "23\\\\\"");
    ScanPair('u', "123\\\\\"");
  }

  lemma ScanQuote(u: string)
    ensures Scan([QUOTE] + u) == Some(0)
  {
  }

  lemma OutOfStepDecode()
    ensures Decode("\\u123\\\\\"", 7) == Decoded("\0\"") && LiteralBeforeOddRun("\\u123\\\\\"", 7)
  {
    var t := "\\u123\\\\\"";
    assert t[2..6] == "123\\" && ParseHex4(t[2..6]) == 0;
    assert ReadLiteral(t, 7) == Some(Literal(0, 6)) && Unit(t, 7) == Some(("\0", 6));
    assert t[6..] == "\\\"";
    assert Unit(t[6..], 1) == Some(("\"", 2));
    DecodeStep(t, 7);
    DecodeStep(t[6..], 1);
  }

  // ----- what both passes look at

  /** The first pass looks no further than the closing quote. */
  lemma {:induction false} ScanLocal(s: string, t: string)
    requires Scan(s).Some? && Scan(s).value < |t| && s[..Scan(s).value + 1] == t[..Scan(s).value + 1]
    ensures Scan(t) == Scan(s)
    decreases |s|
  {
    var n := Scan(s).value;
    assert s[0] == s[..n + 1][0] == t[0];
    if s[0] != QUOTE {
      hide Scan;
      ScanStep(s);
      ScanStep(t);
      var k := if s[0] == BACKSLASH then 2 else 1;
      assert s[k..][..n - k + 1] == s[..n + 1][k..] && t[k..][..n - k + 1] == t[..n + 1][k..];
      ScanLocal(s[k..], t[k..]);
    }
  }

  /** Decoding looks at the n characters and the quote behind them only. */
  lemma {:induction false} DecodeLocal(s: string, t: string, n: int)
    requires n < |s| && n < |t| && (n >= 0 ==> s[..n + 1] == t[..n + 1])
    requires Decode(s, n).Decoded?
    ensures Decode(t, n) == Decode(s, n)
    decreases |s|
  {
    hide Decode, Unit;
    if n <= 0 {
      DecodeNothing(s, n);
      DecodeNothing(t, n);
    } else {
      DecodeStep(s, n);
      DecodeStep(t, n);
      UnitLocal(s, t, n);
      var k := Unit(s, n).value.1;
      if k <= n {
        SameBehind(s, t, n + 1, k);
        DecodeLocal(s[k..], t[k..], n - k);
      }
    }
  }

  lemma DecodeNothing(t: string, n: int)
    requires n <= 0 && n < |t|
    ensures Decode(t, n) == Decoded("")
  {
  }

  lemma SameBehind(s: string, t: string, n: nat, k: nat)
    requires k <= n <= |s| && n <= |t| && s[..n] == t[..n]
    ensures s[k..][..n - k] == t[k..][..n - k]
  {
    assert s[k..][..n - k] == s[..n][k..] && t[k..][..n - k] == t[..n][k..];
  }

  lemma UnitLocal(s: string, t: string, n: int)
    requires 0 < n < |s| && n < |t| && s[..n + 1] == t[..n + 1]
    ensures Unit(t, n) == Unit(s, n)
  {
    var p := s[..n + 1];
    assert s[0] == p[0] == t[0] && s[1] == p[1] == t[1];
    if s[0] == BACKSLASH && s[1] == 'u' { LiteralLocal(s, t, n); }
  }

  lemma LiteralLocal(s: string, t: string, n: int)
    requires 0 < n < |s| && n < |t| && s[..n + 1] == t[..n + 1]
    ensures ReadLiteral(t, n) == ReadLiteral(s, n)
  {
    var p := s[..n + 1];
    assert forall i :: 0 <= i <= n ==> s[i] == p[i] == t[i];
    if n >= 6 { assert s[2..6] == p[2..6] == t[2..6]; }
    if n >= 12 { assert s[8..12] == p[8..12] == t[8..12]; }
  }
}
