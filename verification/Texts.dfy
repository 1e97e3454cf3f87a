// C strings as sequences of characters (the terminating NUL is not part of the sequence),
// their two comparison orders, and decimal numerals.
module Texts {

  /** tolower in the C locale. */
  function ToLower(c: char): (r: char)
    ensures r == '/' <==> c == '/'
    ensures r == '~' <==> c == '~'
    ensures r == '\0' <==> c == '\0'
  {
    if 'A' <= c <= 'Z' then (c as int + 32) as char else c
  }

  /** A key as the case-insensitive comparisons see it. */
  function Fold(s: string): (r: string)
    ensures |r| == |s|
    ensures forall i :: 0 <= i < |s| ==> r[i] == ToLower(s[i])
  {
    seq(|s|, i requires 0 <= i < |s| => ToLower(s[i]))
  }

  /** Strict lexicographic order; the end of a string comes before every character. */
  predicate Less(a: string, b: string) {
    b != [] && (a == [] || a[0] < b[0] || (a[0] == b[0] && Less(a[1..], b[1..])))
  }

  lemma {:induction false} LessTrichotomy(a: string, b: string)
    ensures Less(a, b) || a == b || Less(b, a)
    ensures !(Less(a, b) && Less(b, a))
    ensures !Less(a, a)
  {
    if a != [] {
      LessTrichotomy(a[1..], if b == [] then [] else b[1..]);
      if b != [] && a[0] == b[0] && a[1..] == b[1..] {
        assert a == [a[0]] + a[1..] == b;
      }
    }
  }

  lemma {:induction false} LessTransitive(a: string, b: string, c: string)
    requires Less(a, b) && Less(b, c)
    ensures Less(a, c)
  {
    if a != [] && a[0] == b[0] == c[0] {
      LessTransitive(a[1..], b[1..], c[1..]);
    }
  }

  /** Keys that fold alike differ at most in the case of the letters A to Z. */
  lemma FoldsAlike(s: string, t: string)
    ensures Fold(s) == Fold(t) <==> |s| == |t| && forall i :: 0 <= i < |s| ==> SameLetter(s[i], t[i])
  {
    if |s| == |t| && forall i :: 0 <= i < |s| ==> SameLetter(s[i], t[i]) {
      forall i | 0 <= i < |s| ensures Fold(s)[i] == Fold(t)[i] { LettersAlike(s[i], t[i]); }
    }
    if Fold(s) == Fold(t) {
      assert |s| == |t|;
      forall i | 0 <= i < |s| ensures SameLetter(s[i], t[i]) {
        assert Fold(s)[i] == Fold(t)[i];
        LettersAlike(s[i], t[i]);
      }
    }
  }

  predicate SameLetter(c: char, d: char) {
    c == d || ('A' <= c <= 'Z' && d as int == c as int + 32) || ('A' <= d <= 'Z' && c as int == d as int + 32)
  }

  lemma LettersAlike(c: char, d: char)
    ensures ToLower(c) == ToLower(d) <==> SameLetter(c, d)
  {
  }

  /** The order of strcmp: at the first difference the smaller character, or the end of the string. */
  lemma {:induction false} LessExactly(a: string, b: string)
    ensures Less(a, b) <==> exists k: nat :: SmallerAt(a, b, k)
  {
    if a != [] && b != [] && a[0] == b[0] {
      LessExactly(a[1..], b[1..]);
      if Less(a[1..], b[1..]) {
        var k: nat :| SmallerAt(a[1..], b[1..], k);
        assert forall i :: 0 < i <= k ==> a[i] == a[1..][i - 1] && b[i] == b[1..][i - 1];
        assert SmallerAt(a, b, k + 1);
      } else {
        forall k: nat ensures !SmallerAt(a, b, k) {
          assert k > 0 && SmallerAt(a, b, k) ==> SmallerAt(a[1..], b[1..], k - 1);
        }
      }
    } else if Less(a, b) {
      assert SmallerAt(a, b, 0);
    }
  }

  /** The strings agree in front of k, and there a is at its end or has the smaller character. */
  predicate SmallerAt(a: string, b: string, k: nat) {
    k <= |a| && k < |b| && (forall i :: 0 <= i < k ==> a[i] == b[i]) && (k == |a| || a[k] < b[k])
  }

  /** What a comparison of the key k sees: the key itself, or the folded key. */
  function Seen(k: string, caseSensitive: bool): string {
    if caseSensitive then k else Fold(k)
  }

  /** The characters a C comparison reads: past the end it finds the terminator. */
  function CharAt(s: string, i: nat): int {
    if i < |s| then s[i] as int else 0
  }

  /** compare_strings on two non-NULL strings: its sign is the order of the seen keys. */
  method CompareStrings(string1: string, string2: string, caseSensitive: bool) returns (diff: int)
    requires '\0' !in string1 && '\0' !in string2
    ensures diff == 0 <==> Seen(string1, caseSensitive) == Seen(string2, caseSensitive)
    ensures diff < 0 <==> Less(Seen(string1, caseSensitive), Seen(string2, caseSensitive))
    ensures diff > 0 <==> Less(Seen(string2, caseSensitive), Seen(string1, caseSensitive))
  {
    var a, b := Seen(string1, caseSensitive), Seen(string2, caseSensitive);
    LessTrichotomy(a, b);
    var i := 0;
    while CharAt(a, i) == CharAt(b, i)
      invariant i <= |a| && i <= |b| && a[..i] == b[..i]
      invariant Less(a, b) == Less(a[i..], b[i..])
      decreases |a| - i
    {
      if CharAt(a, i) == 0 {
        assert a == a[..i] && b == b[..i];
        return 0;
      }
      i := i + 1;
    }
    assert a[i..] != b[i..];
    return CharAt(a, i) - CharAt(b, i);
  }

  lemma Assoc<T>(a: seq<T>, b: seq<T>, c: seq<T>)
    ensures (a + b) + c == a + (b + c)
  {
  }

  // ----- decimal numerals

  predicate IsDigit(c: char) { '0' <= c <= '9' }

  predicate AllDigits(s: string) { forall i :: 0 <= i < |s| ==> IsDigit(s[i]) }

  function DigitValue(c: char): (v: int) { c as int - '0' as int }

  /** The text that "%lu" gives for n. */
  function Decimal(n: nat): (s: string)
    ensures s != "" && AllDigits(s)
    ensures |s| > 1 ==> s[0] != '0'
    ensures s[0] == '0' <==> n == 0
  {
    if n < 10 then [(n + '0' as int) as char]
    else Decimal(n / 10) + [(n % 10 + '0' as int) as char]
  }

  /** The number a digit string denotes. */
  function Value(s: string): (n: nat)
    requires AllDigits(s)
  {
    if s == "" then 0 else 10 * Value(s[..|s| - 1]) + DigitValue(s[|s| - 1])
  }

  lemma {:induction false} ValueOfDecimal(n: nat)
    ensures Value(Decimal(n)) == n
  {
    var s := Decimal(n);
    if n < 10 {
      assert s[..|s| - 1] == "";
    } else {
      ValueOfDecimal(n / 10);
      assert s[..|s| - 1] == Decimal(n / 10);
    }
  }

  lemma {:induction false} ValuePositive(s: string)
    requires AllDigits(s) && s != "" && s[0] != '0'
    ensures Value(s) > 0
  {
    if |s| > 1 { ValuePositive(s[..|s| - 1]); }
  }

  /** A numeral without leading zeros is the one its value prints as. */
  lemma {:induction false} DecimalOfValue(s: string)
    requires AllDigits(s) && s != "" && (|s| > 1 ==> s[0] != '0')
    ensures Decimal(Value(s)) == s
  {
    if |s| == 1 {
      assert s[..0] == "";
    } else {
      var t := s[..|s| - 1];
      ValuePositive(t);
      DecimalOfValue(t);
      assert s == t + [s[|s| - 1]];
      assert Value(s) / 10 == Value(t) && Value(s) % 10 == DigitValue(s[|s| - 1]);
    }
  }
}
