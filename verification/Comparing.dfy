// The two equality tests: compare_json (cJSON_Utils.c), which sorts both trees and walks them in
// step, and cJSON_Compare (cJSON.c), which looks every key up in the other tree.
module Comparing {
  import opened Texts
  import opened Documents
  import opened Sorting

  // ----- nesting height, the termination measure of walks over sorted copies

  function Max(a: nat, b: nat): nat { if a < b then b else a }

  function Height(j: Json): nat {
    match j
    case Array(items) => 1 + HeightOfItems(items)
    case Object(ms) => 1 + HeightOfMembers(ms)
    case _ => 0
  }

  function HeightOfItems(items: seq<Json>): nat {
    if items == [] then 0 else Max(Height(items[0]), HeightOfItems(items[1..]))
  }

  function HeightOfMembers(ms: seq<Member<Json>>): nat {
    if ms == [] then 0 else Max(Height(ms[0].value), HeightOfMembers(ms[1..]))
  }

  lemma {:induction false} ItemIsLower(items: seq<Json>, i: nat)
    requires i < |items|
    ensures Height(items[i]) < Height(Array(items))
  {
    if i > 0 {
      ItemIsLower(items[1..], i - 1);
      assert items[1..][i - 1] == items[i];
    }
  }

  lemma {:induction false} MemberIsLower(ms: seq<Member<Json>>, i: nat)
    requires i < |ms|
    ensures Height(ms[i].value) < Height(Object(ms))
  {
    if i > 0 {
      MemberIsLower(ms[1..], i - 1);
      assert ms[1..][i - 1] == ms[i];
    }
  }

  ghost predicate MembersBelow(ms: seq<Member<Json>>, h: nat) {
    forall i :: 0 <= i < |ms| ==> Height(ms[i].value) < h
  }

  lemma SortedBelow(ms: seq<Member<Json>>)
    ensures MembersBelow(MergeSort(ms, false), Height(Object(ms)))
  {
    var r := MergeSort(ms, false);
    forall i | 0 <= i < |r| ensures Height(r[i].value) < Height(Object(ms)) {
      assert r[i] in multiset(ms);
      var k :| 0 <= k < |ms| && ms[k] == r[i];
      MemberIsLower(ms, k);
    }
  }

  // ----- compare_json

  predicate SameType(a: Json, b: Json) {
    match a
    case Invalid => b.Invalid?
    case Null => b.Null?
    case False => b.False?
    case True => b.True?
    case Number(_, _) => b.Number?
    case String(_) => b.String?
    case Array(_) => b.Array?
    case Object(_) => b.Object?
  }

  /** The answer, and both trees as the comparison leaves them: objects it visited are sorted. */
  datatype Compared<T> = Compared(same: bool, a: T, b: T)

  function CompareJson(a: Json, b: Json): Compared<Json>
    decreases Height(a), 1, 0
  {
    if !SameType(a, b) then Compared(false, a, b)
    else match a
      case Number(i, d) => Compared(i == b.valueint && d == b.valuedouble, a, b)
      case String(s) => Compared(s == b.text, a, b)
      case Array(items) =>
        var r := CompareItems(items, b.items);
        Compared(r.same, Array(r.a), Array(r.b))
      case Object(ms) =>
        SortedBelow(ms);
        var r := CompareMembers(MergeSort(ms, false), MergeSort(b.members, false), Height(a));
        Compared(r.same, Object(r.a), Object(r.b))
      case _ => Compared(true, a, b)
  }

  function CompareItems(xs: seq<Json>, ys: seq<Json>): Compared<seq<Json>>
    decreases Height(Array(xs)), 0, |xs|
  {
    if xs == [] || ys == [] then Compared(xs == [] && ys == [], xs, ys)
    else
      ItemIsLower(xs, 0);
      var c := CompareJson(xs[0], ys[0]);
      if !c.same then Compared(false, [c.a] + xs[1..], [c.b] + ys[1..])
      else
        var r := CompareItems(xs[1..], ys[1..]);
        Compared(r.same, [c.a] + r.a, [c.b] + r.b)
  }

  function CompareMembers(xs: seq<Member<Json>>, ys: seq<Member<Json>>, ghost h: nat): Compared<seq<Member<Json>>>
    requires MembersBelow(xs, h)
    decreases h, 0, |xs|
  {
    if xs == [] || ys == [] then Compared(xs == [] && ys == [], xs, ys)
    else if Fold(xs[0].key) != Fold(ys[0].key) then Compared(false, xs, ys)
    else
      var c := CompareJson(xs[0].value, ys[0].value);
      var x, y := xs[0].(value := c.a), ys[0].(value := c.b);
      if !c.same then Compared(false, [x] + xs[1..], [y] + ys[1..])
      else
        var r := CompareMembers(xs[1..], ys[1..], h);
        Compared(r.same, [x] + r.a, [y] + r.b)
  }

  /**
   * compare_json decides equality of the abstract documents, and the sorting it does on the way
   * changes neither of them.
   */
  lemma {:induction false} CompareJsonDecidesEquality(a: Json, b: Json)
    requires Distinct(a) && Distinct(b)
    ensures var r := CompareJson(a, b);
      && (r.same <==> Abs(a) == Abs(b))
      && Abs(r.a) == Abs(a) && Distinct(r.a)
      && Abs(r.b) == Abs(b) && Distinct(r.b)
    decreases Height(a), 1, 0
  {
    if SameType(a, b) {
      match a
      case Array(items) =>
        CompareItemsDecides(items, b.items);
      case Object(ms) =>
        SortedBelow(ms);
        SortedMembers(ms);
        SortedMembers(b.members);
        CompareMembersDecides(MergeSort(ms, false), MergeSort(b.members, false), Height(a));
      case _ =>
    }
  }

  lemma {:induction false} HeightOfBounded(ms: seq<Member<Json>>, h: nat)
    requires MembersBelow(ms, h) && h > 0
    ensures Height(Object(ms)) <= h
  {
    if ms != [] {
      assert forall i :: 0 <= i < |ms| - 1 ==> ms[1..][i] == ms[i + 1];
      HeightOfBounded(ms[1..], h);
    }
  }

  /** The comparison does not make a tree higher. */
  lemma {:induction false} CompareJsonHeight(a: Json, b: Json)
    ensures Height(CompareJson(a, b).a) <= Height(a)
    decreases Height(a), 1, 0
  {
    if SameType(a, b) && a.Array? {
      CompareItemsHeight(a.items, b.items);
    } else if SameType(a, b) && a.Object? {
      SortedBelow(a.members);
      CompareMembersHeight(MergeSort(a.members, false), MergeSort(b.members, false), Height(a));
      HeightOfBounded(CompareJson(a, b).a.members, Height(a));
    }
  }

  lemma {:induction false} CompareItemsHeight(xs: seq<Json>, ys: seq<Json>)
    ensures HeightOfItems(CompareItems(xs, ys).a) <= HeightOfItems(xs)
    decreases Height(Array(xs)), 0, |xs|
  {
    if xs != [] && ys != [] {
      ItemIsLower(xs, 0);
      CompareJsonHeight(xs[0], ys[0]);
      CompareItemsHeight(xs[1..], ys[1..]);
      var c := CompareJson(xs[0], ys[0]);
      var t := if c.same then CompareItems(xs[1..], ys[1..]).a else xs[1..];
      assert ([c.a] + t)[1..] == t;
    }
  }

  lemma {:induction false} CompareMembersHeight(xs: seq<Member<Json>>, ys: seq<Member<Json>>, h: nat)
    requires MembersBelow(xs, h)
    ensures MembersBelow(CompareMembers(xs, ys, h).a, h)
    decreases h, 0, |xs|
  {
    if xs != [] && ys != [] && Fold(xs[0].key) == Fold(ys[0].key) {
      assert forall i :: 0 <= i < |xs| - 1 ==> xs[1..][i] == xs[i + 1];
      CompareJsonHeight(xs[0].value, ys[0].value);
      CompareMembersHeight(xs[1..], ys[1..], h);
    }
  }

  lemma ElementsCons(x: Json, xs: seq<Json>)
    ensures Elements([x] + xs) == [Abs(x)] + Elements(xs)
  {
    var s := [x] + xs;
    var d, e := Elements(s), [Abs(x)] + Elements(xs);
    assert forall i :: 0 <= i < |s| ==> s[i] == if i == 0 then x else xs[i - 1];
    assert forall i :: 0 <= i < |s| ==> d[i] == e[i];
  }

  lemma DistinctCons(x: Json, xs: seq<Json>)
    requires Distinct(x) && Distinct(Array(xs))
    ensures Distinct(Array([x] + xs))
  {
    var s := [x] + xs;
    assert forall i :: 0 <= i < |s| ==> s[i] == if i == 0 then x else xs[i - 1];
  }

  lemma {:induction false} CompareItemsDecides(xs: seq<Json>, ys: seq<Json>)
    requires Distinct(Array(xs)) && Distinct(Array(ys))
    ensures var r := CompareItems(xs, ys);
      && (r.same <==> Elements(xs) == Elements(ys))
      && Elements(r.a) == Elements(xs) && Distinct(Array(r.a))
      && Elements(r.b) == Elements(ys) && Distinct(Array(r.b))
    decreases Height(Array(xs)), 0, |xs|
  {
    hide CompareJson, Abs, MergeSort;
    if xs != [] && ys != [] {
      ItemIsLower(xs, 0);
      assert xs == [xs[0]] + xs[1..] && ys == [ys[0]] + ys[1..];
      ElementsCons(xs[0], xs[1..]);
      ElementsCons(ys[0], ys[1..]);
      var c := CompareJson(xs[0], ys[0]);
      CompareJsonDecidesEquality(xs[0], ys[0]);
      CompareItemsDecides(xs[1..], ys[1..]);
      var t := if c.same then CompareItems(xs[1..], ys[1..]) else Compared(false, xs[1..], ys[1..]);
      ElementsCons(c.a, t.a);
      ElementsCons(c.b, t.b);
      DistinctCons(c.a, t.a);
      DistinctCons(c.b, t.b);
      assert Elements(xs)[0] == Abs(xs[0]) && Elements(ys)[0] == Abs(ys[0]);
      assert Elements(xs)[1..] == Elements(xs[1..]) && Elements(ys)[1..] == Elements(ys[1..]);
    }
  }

  /** Replacing the head value by an equal document keeps what a list of members means. */
  lemma ConsSame(m: Member<Json>, v: Json, rest: seq<Member<Json>>, rest': seq<Member<Json>>)
    requires Abs(v) == Abs(m.value) && Distinct(v)
    requires DistinctMembers([m] + rest) && DistinctMembers(rest') && Fields(rest') == Fields(rest)
    ensures Fields([m.(value := v)] + rest') == Fields([m] + rest)
    ensures DistinctMembers([m.(value := v)] + rest')
  {
    var r := [m.(value := v)] + rest';
    assert r[1..] == rest' && ([m] + rest)[1..] == rest;
    FirstKeyIsNew(m, rest);
    DistinctMembersCons(m.(value := v), rest');
  }

  lemma FirstKeyIsNew(m: Member<Json>, rest: seq<Member<Json>>)
    requires DistinctMembers([m] + rest)
    ensures Fold(m.key) !in Fields(rest)
  {
    FieldsKeys(rest, Fold(m.key));
    var r := [m] + rest;
    assert r[0] == m;
    forall i | 0 <= i < |rest| ensures Fold(rest[i].key) != Fold(m.key) {
      assert r[i + 1] == rest[i];
    }
  }

  lemma DistinctMembersCons(m: Member<Json>, rest: seq<Member<Json>>)
    requires DistinctMembers(rest) && Distinct(m.value) && Fold(m.key) !in Fields(rest)
    ensures DistinctMembers([m] + rest)
    ensures Fields([m] + rest) == Fields(rest)[Fold(m.key) := Abs(m.value)]
  {
    var r := [m] + rest;
    forall i | 0 <= i < |rest| ensures r[i + 1] == rest[i] && Fold(rest[i].key) != Fold(m.key) {
      FieldsKeys(rest, Fold(m.key));
    }
    assert forall i :: 0 < i < |r| ==> r[i] == rest[i - 1];
    assert r[1..] == rest;
  }

  lemma TailMembers(ms: seq<Member<Json>>)
    requires DistinctMembers(ms) && ms != []
    ensures DistinctMembers(ms[1..])
    ensures Fold(ms[0].key) !in Fields(ms[1..])
    ensures Fields(ms)[Fold(ms[0].key)] == Abs(ms[0].value)
    ensures Fields(ms) - {Fold(ms[0].key)} == Fields(ms[1..])
  {
    FieldsKeys(ms[1..], Fold(ms[0].key));
    forall i | 0 <= i < |ms[1..]| ensures ms[1..][i] == ms[i + 1] {}
  }

  /** The first key of an ascending list is not a key of a list that starts above it. */
  lemma KeyBelow(k: string, ms: seq<Member<Json>>)
    requires Ascending(ms) && (ms != [] ==> Less(k, Fold(ms[0].key)))
    ensures k !in Fields(ms)
  {
    FieldsKeys(ms, k);
    forall i | 0 <= i < |ms| ensures Fold(ms[i].key) != k {
      if i > 0 { LessTransitive(k, Fold(ms[0].key), Fold(ms[i].key)); }
      LessTrichotomy(k, Fold(ms[i].key));
    }
  }

  lemma {:induction false} CompareMembersDecides(xs: seq<Member<Json>>, ys: seq<Member<Json>>, h: nat)
    requires MembersBelow(xs, h)
    requires DistinctMembers(xs) && DistinctMembers(ys) && Ascending(xs) && Ascending(ys)
    ensures var r := CompareMembers(xs, ys, h);
      && (r.same <==> Fields(xs) == Fields(ys))
      && Fields(r.a) == Fields(xs) && DistinctMembers(r.a)
      && Fields(r.b) == Fields(ys) && DistinctMembers(r.b)
    decreases h, 0, |xs|
  {
    hide CompareJson, Distinct, MergeSort, Height, Fold, Less;
    if xs == [] || ys == [] {
      if xs != [] { assert Fold(xs[0].key) in Fields(xs); }
      if ys != [] { assert Fold(ys[0].key) in Fields(ys); }
    } else {
      var k, l := Fold(xs[0].key), Fold(ys[0].key);
      TailMembers(xs);
      TailMembers(ys);
      if k != l {
        LessTrichotomy(k, l);
        if Less(k, l) { KeyBelow(k, ys); } else { KeyBelow(l, xs); }
        assert k in Fields(xs) && l in Fields(ys);
      } else {
        var c := CompareJson(xs[0].value, ys[0].value);
        CompareJsonDecidesEquality(xs[0].value, ys[0].value);
        CompareMembersDecides(xs[1..], ys[1..], h);
        var t := if c.same then CompareMembers(xs[1..], ys[1..], h) else Compared(false, xs[1..], ys[1..]);
        assert xs == [xs[0]] + xs[1..] && ys == [ys[0]] + ys[1..];
        ConsSame(xs[0], c.a, xs[1..], t.a);
        ConsSame(ys[0], c.b, ys[1..], t.b);
        assert Fields(xs)[k] == Abs(xs[0].value) && Fields(ys)[k] == Abs(ys[0].value);
      }
    }
  }

  // ----- cJSON_Compare, case-insensitive

  function Compare(a: Json, b: Json): bool
    decreases Height(a) + Height(b), 1
  {
    if !SameType(a, b) then false
    else match a
      case Invalid => false
      case Number(_, d) => d == b.valuedouble
      case String(s) => s == b.text
      case Array(items) =>
        && |items| == |b.items|
        && forall i :: 0 <= i < |items| ==>
          (ItemIsLower(items, i); ItemIsLower(b.items, i); Compare(items[i], b.items[i]))
      case Object(ms) => Covers(ms, b.members) && Covers(b.members, ms)
      case _ => true
  }

  /** Every member of the first list has an equal member in the second. */
  predicate Covers(xs: seq<Member<Json>>, ys: seq<Member<Json>>)
    decreases Height(Object(xs)) + Height(Object(ys)), 0
  {
    forall i :: 0 <= i < |xs| ==>
      var k := Find(ys, xs[i].key);
      k < |ys| && (MemberIsLower(xs, i); MemberIsLower(ys, k); Compare(xs[i].value, ys[k].value))
  }

  /** valueint is the double, cut off and saturated, as parsing and creating numbers leave it. */
  const INT_MAX := 0x7fff_ffff
  const INT_MIN := -0x8000_0000

  function ToInt(d: real): int {
    if d >= INT_MAX as real then INT_MAX
    else if d <= INT_MIN as real then INT_MIN
    else if d >= 0.0 then d.Floor
    else -((-d).Floor)
  }

  /** The integer field z of a number d: d without its fraction, or the end of the int range that d is beyond. */
  predicate CutOff(d: real, z: int) {
    if d >= 2147483647.0 then z == 2147483647
    else if d <= -2147483648.0 then z == -2147483648
    else -1.0 < z as real - d < 1.0 && if d >= 0.0 then 0.0 <= z as real <= d else d <= z as real <= 0.0
  }

  lemma ToIntIsCutOff(d: real, z: int)
    ensures z == ToInt(d) <==> CutOff(d, z)
    ensures -2147483648 <= ToInt(d) <= 2147483647
  {
    assert INT_MAX as real == 2147483647.0 && INT_MIN as real == -2147483648.0;
    var e := if d >= 0.0 then d else -d;
    assert e.Floor as real <= e < e.Floor as real + 1.0;
    if CutOff(d, z) && -2147483648.0 < d < 2147483647.0 {
      var y := ToInt(d);
      assert (y - z) as real == y as real - z as real;
      assert -1.0 < (y - z) as real < 1.0;
    }
  }

  /** Whole numbers of the int range are kept. */
  lemma ToIntOfWhole(n: int)
    requires -2147483648 <= n <= 2147483647
    ensures ToInt(n as real) == n
  {
    ToIntIsCutOff(n as real, n);
  }

  /** The document with every integer field set from its double. */
  function Blur(d: Doc): Doc {
    match d
    case DNumber(_, x) => DNumber(ToInt(x), x)
    case DArray(items) => DArray(seq(|items|, i requires 0 <= i < |items| => Blur(items[i])))
    case DObject(m) => DObject(map k | k in m :: Blur(m[k]))
    case _ => d
  }

  /** No invalid item anywhere. */
  predicate Valid(d: Doc) {
    match d
    case DInvalid => false
    case DArray(items) => forall i :: 0 <= i < |items| ==> Valid(items[i])
    case DObject(m) => forall k :: k in m ==> Valid(m[k])
    case _ => true
  }

  lemma {:induction false} BlurKeepsValid(d: Doc)
    ensures Valid(Blur(d)) <==> Valid(d)
  {
    match d
    case DArray(items) =>
      var r := Blur(d).items;
      forall i | 0 <= i < |items| ensures r[i] == Blur(items[i]) && (Valid(r[i]) <==> Valid(items[i])) {
        BlurKeepsValid(items[i]);
      }
      assert forall i :: 0 <= i < |items| ==> (Valid(items[i]) <==> Valid(r[i]));
    case DObject(m) =>
      var r := Blur(d).fields;
      forall k | k in m ensures r[k] == Blur(m[k]) && (Valid(r[k]) <==> Valid(m[k])) {
        BlurKeepsValid(m[k]);
      }
      assert forall k :: k in m ==> (Valid(m[k]) <==> Valid(r[k]));
    case _ =>
  }

  /** What cJSON_Compare sees of a document: a match needs valid items and ignores integer fields. */
  predicate Alike(d: Doc, e: Doc) { Valid(d) && Blur(d) == Blur(e) }

  lemma AlikeArrays(xs: seq<Doc>, ys: seq<Doc>)
    ensures Alike(DArray(xs), DArray(ys)) <==> |xs| == |ys| && forall i :: 0 <= i < |xs| ==> Alike(xs[i], ys[i])
  {
    var x, y := Blur(DArray(xs)).items, Blur(DArray(ys)).items;
    assert forall i :: 0 <= i < |xs| ==> x[i] == Blur(xs[i]);
    assert forall i :: 0 <= i < |ys| ==> y[i] == Blur(ys[i]);
  }

  /** Every field of m has a like field in n. */
  ghost predicate Submap(m: map<string, Doc>, n: map<string, Doc>) {
    forall k :: k in m ==> k in n && Alike(m[k], n[k])
  }

  lemma BlurredFields(m: map<string, Doc>)
    ensures Blur(DObject(m)).DObject? && Blur(DObject(m)).fields.Keys == m.Keys
    ensures forall k :: k in m ==> Blur(DObject(m)).fields[k] == Blur(m[k])
  {
  }

  lemma AlikeObjects(m: map<string, Doc>, n: map<string, Doc>)
    ensures Alike(DObject(m), DObject(n)) <==> Submap(m, n) && Submap(n, m)
  {
    hide Blur;
    BlurredFields(m);
    BlurredFields(n);
    var x, y := Blur(DObject(m)).fields, Blur(DObject(n)).fields;
    if Submap(m, n) && Submap(n, m) {
      assert forall k :: k in x <==> k in y;
      assert x == y;
    }
    if Alike(DObject(m), DObject(n)) {
      forall k | k in n ensures k in m && Alike(n[k], m[k]) {
        assert k in y && k in x;
        BlurKeepsValid(m[k]);
        BlurKeepsValid(n[k]);
      }
      forall k | k in m ensures k in n && Alike(m[k], n[k]) {
        assert k in x && k in y;
      }
    }
  }

  /** cJSON_Compare holds exactly for valid documents that are equal but for integer fields. */
  lemma {:induction false} CompareDecidesAlike(a: Json, b: Json)
    requires Distinct(a) && Distinct(b)
    ensures Compare(a, b) <==> Alike(Abs(a), Abs(b))
    decreases Height(a) + Height(b), 1
  {
    if SameType(a, b) {
      match a
      case Array(items) =>
        if |items| == |b.items| {
          forall i | 0 <= i < |items|
            ensures Compare(items[i], b.items[i]) <==> Alike(Elements(items)[i], Elements(b.items)[i])
          {
            ItemIsLower(items, i);
            ItemIsLower(b.items, i);
            CompareDecidesAlike(items[i], b.items[i]);
          }
        }
        AlikeArrays(Elements(items), Elements(b.items));
      case Object(ms) =>
        CoversIsSubmap(ms, b.members);
        CoversIsSubmap(b.members, ms);
        AlikeObjects(Fields(ms), Fields(b.members));
      case _ =>
    } else {
      DifferentTypes(a, b);
    }
  }

  lemma DifferentTypes(a: Json, b: Json)
    requires !SameType(a, b)
    ensures Blur(Abs(a)) != Blur(Abs(b))
  {
  }

  lemma {:induction false} CoversIsSubmap(xs: seq<Member<Json>>, ys: seq<Member<Json>>)
    requires DistinctMembers(xs) && DistinctMembers(ys)
    ensures Covers(xs, ys) <==> Submap(Fields(xs), Fields(ys))
    decreases Height(Object(xs)) + Height(Object(ys)), 0
  {
    hide Alike;
    forall i | 0 <= i < |xs|
      ensures var k := Fold(xs[i].key);
        k in Fields(xs) && Fields(xs)[k] == Abs(xs[i].value)
      ensures var l := Find(ys, xs[i].key);
        l < |ys| && Compare(xs[i].value, ys[l].value) <==>
        Fold(xs[i].key) in Fields(ys) && Alike(Abs(xs[i].value), Fields(ys)[Fold(xs[i].key)])
    {
      FieldsAt(xs, i);
      FindIsField(ys, xs[i].key);
      var l := Find(ys, xs[i].key);
      if l < |ys| {
        MemberIsLower(xs, i);
        MemberIsLower(ys, l);
        CompareDecidesAlike(xs[i].value, ys[l].value);
      }
    }
    forall k | k in Fields(xs) ensures exists i :: 0 <= i < |xs| && Fold(xs[i].key) == k {
      FieldsKeys(xs, k);
    }
  }

  /**
   * The two tests agree except on documents that are equal but for integer fields: there one looks
   * at those fields and the other at invalid items.
   */
  lemma ComparisonsAgree(a: Json, b: Json)
    requires Distinct(a) && Distinct(b)
    ensures CompareJson(a, b).same == Compare(a, b) <==>
      (Blur(Abs(a)) == Blur(Abs(b)) ==> (Abs(a) == Abs(b) <==> Valid(Abs(a))))
  {
    CompareJsonDecidesEquality(a, b);
    CompareDecidesAlike(a, b);
  }

  /** Documents on which they disagree: an invalid item, and numbers whose integer fields differ. */
  lemma ComparisonsDisagree()
    ensures CompareJson(Invalid, Invalid).same && !Compare(Invalid, Invalid)
    ensures !CompareJson(Number(1, 1.0), Number(2, 1.0)).same && Compare(Number(1, 1.0), Number(2, 1.0))
  {
  }

  /** No invalid item anywhere, and every number's two fields agree. */
  predicate Proper(d: Doc) { Valid(d) && Blur(d) == d }

  /** On proper documents both tests decide equality. */
  lemma BothDecideEquality(a: Json, b: Json)
    requires Distinct(a) && Distinct(b) && Proper(Abs(a)) && Proper(Abs(b))
    ensures CompareJson(a, b).same == Compare(a, b) == (Abs(a) == Abs(b))
  {
    CompareJsonDecidesEquality(a, b);
    CompareDecidesAlike(a, b);
  }
}
