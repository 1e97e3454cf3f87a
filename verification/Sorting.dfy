// sort_list as a function on the list of members: an early exit for sorted lists, a split in the
// middle, and a merge that compares case-insensitively whatever the caller asked for.
module Sorting {
  import opened Texts
  import opened Documents

  /** The test for an already sorted list. */
  predicate StrictlySorted<T>(s: seq<Member<T>>, caseSensitive: bool) {
    forall i :: 0 <= i < |s| - 1 ==> Less(Seen(s[i].key, caseSensitive), Seen(s[i + 1].key, caseSensitive))
  }

  /** No later key is below an earlier one. */
  predicate Ordered<T>(s: seq<Member<T>>) {
    forall i, j :: 0 <= i < j < |s| ==> !Less(Fold(s[j].key), Fold(s[i].key))
  }

  /** Every later key is above every earlier one. */
  predicate Ascending<T>(s: seq<Member<T>>) {
    forall i, j :: 0 <= i < j < |s| ==> Less(Fold(s[i].key), Fold(s[j].key))
  }

  function Merge<T>(a: seq<Member<T>>, b: seq<Member<T>>): (r: seq<Member<T>>)
    ensures multiset(r) == multiset(a) + multiset(b)
    decreases |a| + |b|
  {
    if a == [] then b
    else if b == [] then a
    else if Less(Fold(a[0].key), Fold(b[0].key)) then
      assert a == [a[0]] + a[1..];
      [a[0]] + Merge(a[1..], b)
    else
      assert b == [b[0]] + b[1..];
      [b[0]] + Merge(a, b[1..])
  }

  function MergeSort<T>(s: seq<Member<T>>, caseSensitive: bool): (r: seq<Member<T>>)
    ensures multiset(r) == multiset(s)
    ensures |r| == |s|
    decreases |s|
  {
    if |s| <= 1 || StrictlySorted(s, caseSensitive) then s
    else
      var mid := (|s| + 1) / 2;
      assert s == s[..mid] + s[mid..];
      var r := Merge(MergeSort(s[..mid], caseSensitive), MergeSort(s[mid..], caseSensitive));
      assert |multiset(r)| == |multiset(s)|;
      r
  }

  lemma {:induction false} StrictlySortedAscends<T>(s: seq<Member<T>>, i: nat, j: nat)
    requires StrictlySorted(s, false) && i < j < |s|
    ensures Less(Fold(s[i].key), Fold(s[j].key))
    decreases j - i
  {
    if i + 1 < j {
      StrictlySortedAscends(s, i + 1, j);
      LessTransitive(Fold(s[i].key), Fold(s[i + 1].key), Fold(s[j].key));
    }
  }

  lemma NotLessTransitive(a: string, b: string, c: string)
    requires !Less(b, a) && !Less(c, b)
    ensures !Less(c, a)
  {
    LessTrichotomy(a, b);
    LessTrichotomy(b, c);
    LessTrichotomy(a, c);
    if Less(c, a) && Less(a, b) { LessTransitive(c, a, b); }
  }

  /** x is not above any element, so it can be put in front. */
  lemma OrderedCons<T>(x: Member<T>, s: seq<Member<T>>)
    requires Ordered(s)
    requires s != [] ==> !Less(Fold(s[0].key), Fold(x.key))
    ensures Ordered([x] + s)
  {
    var r := [x] + s;
    forall i, j | 0 <= i < j < |r| ensures !Less(Fold(r[j].key), Fold(r[i].key)) {
      if i == 0 && j > 1 {
        NotLessTransitive(Fold(x.key), Fold(s[0].key), Fold(s[j - 1].key));
      }
    }
  }

  lemma {:induction false} MergeOrdered<T>(a: seq<Member<T>>, b: seq<Member<T>>)
    requires Ordered(a) && Ordered(b)
    ensures Ordered(Merge(a, b))
    decreases |a| + |b|
  {
    if a != [] && b != [] {
      LessTrichotomy(Fold(a[0].key), Fold(b[0].key));
      if Less(Fold(a[0].key), Fold(b[0].key)) {
        MergeOrdered(a[1..], b);
        OrderedCons(a[0], Merge(a[1..], b));
      } else {
        MergeOrdered(a, b[1..]);
        OrderedCons(b[0], Merge(a, b[1..]));
      }
    }
  }

  /** The case-insensitive sort orders any list by folded key. */
  lemma {:induction false} MergeSortOrdered<T>(s: seq<Member<T>>)
    ensures Ordered(MergeSort(s, false))
    decreases |s|
  {
    if |s| > 1 {
      if StrictlySorted(s, false) {
        forall i, j | 0 <= i < j < |s| ensures !Less(Fold(s[j].key), Fold(s[i].key)) {
          StrictlySortedAscends(s, i, j);
          LessTrichotomy(Fold(s[i].key), Fold(s[j].key));
        }
      } else {
        var mid := (|s| + 1) / 2;
        MergeSortOrdered(s[..mid]);
        MergeSortOrdered(s[mid..]);
        MergeOrdered(MergeSort(s[..mid], false), MergeSort(s[mid..], false));
      }
    }
  }

  lemma MultiplicityTwo<T>(s: seq<T>, i: nat, j: nat)
    requires i < j < |s| && s[i] == s[j]
    ensures multiset(s)[s[i]] >= 2
  {
    assert s == s[..j] + s[j..];
    assert s[i] in s[..j] && s[j] in s[j..];
  }

  lemma MultiplicityOne<T>(s: seq<Member<T>>, i: nat)
    requires DistinctKeys(s) && i < |s|
    ensures multiset(s)[s[i]] == 1
  {
    assert s == s[..i] + [s[i]] + s[i + 1..];
    assert s[i] !in s[..i] && s[i] !in s[i + 1..];
  }

  /** Reordering a list keeps its keys distinct. */
  lemma PermutationDistinct<T>(s: seq<Member<T>>, t: seq<Member<T>>)
    requires DistinctKeys(s) && multiset(s) == multiset(t)
    ensures DistinctKeys(t)
  {
    forall i, j | 0 <= i < j < |t| ensures Fold(t[i].key) != Fold(t[j].key) {
      if Fold(t[i].key) == Fold(t[j].key) {
        assert t[i] in multiset(s) && t[j] in multiset(s);
        var a :| 0 <= a < |s| && s[a] == t[i];
        var b :| 0 <= b < |s| && s[b] == t[j];
        assert a == b;
        MultiplicityOne(s, a);
        MultiplicityTwo(t, i, j);
      }
    }
  }

  /** Reordering the members of an object does not change the document it stands for. */
  lemma PermutationFields(s: seq<Member<Json>>, t: seq<Member<Json>>)
    requires DistinctKeys(s) && multiset(s) == multiset(t)
    ensures Fields(t) == Fields(s)
  {
    PermutationDistinct(s, t);
    forall k ensures k in Fields(s) <==> k in Fields(t)
             ensures k in Fields(s) ==> Fields(s)[k] == Fields(t)[k]
    {
      FieldsKeys(s, k);
      FieldsKeys(t, k);
      if i :| 0 <= i < |s| && Fold(s[i].key) == k {
        assert s[i] in multiset(t);
        var j :| 0 <= j < |t| && t[j] == s[i];
        FieldsAt(s, i);
        FieldsAt(t, j);
      }
      if j :| 0 <= j < |t| && Fold(t[j].key) == k {
        assert t[j] in multiset(s);
        var i :| 0 <= i < |s| && s[i] == t[j];
      }
    }
  }

  /** What sort_object leaves of a list with distinct folded keys: same document, ascending keys. */
  lemma SortedMembers(ms: seq<Member<Json>>)
    requires DistinctMembers(ms)
    ensures var r := MergeSort(ms, false);
      Fields(r) == Fields(ms) && DistinctMembers(r) && Ascending(r)
  {
    var r := MergeSort(ms, false);
    PermutationFields(ms, r);
    PermutationDistinct(ms, r);
    MergeSortOrdered(ms);
    forall i | 0 <= i < |r| ensures Distinct(r[i].value) {
      assert r[i] in multiset(ms);
    }
    forall i, j | 0 <= i < j < |r| ensures Less(Fold(r[i].key), Fold(r[j].key)) {
      LessTrichotomy(Fold(r[i].key), Fold(r[j].key));
    }
  }

  /** Sorting a sorted list again leaves it as it is. */
  lemma SortIdempotent<T>(s: seq<Member<T>>)
    requires DistinctKeys(s)
    ensures MergeSort(MergeSort(s, false), false) == MergeSort(s, false)
  {
    var r := MergeSort(s, false);
    MergeSortOrdered(s);
    PermutationDistinct(s, r);
    forall i | 0 <= i < |r| - 1 ensures Less(Fold(r[i].key), Fold(r[i + 1].key)) {
      LessTrichotomy(Fold(r[i].key), Fold(r[i + 1].key));
    }
    assert StrictlySorted(r, false);
  }

  // ----- the case-sensitive sort, whose merge folds case all the same

  /** In the order of strcmp: no later key is below an earlier one. */
  predicate Alphabetical<T>(s: seq<Member<T>>) {
    forall i, j :: 0 <= i < j < |s| ==> !Less(s[j].key, s[i].key)
  }

  /** strcmp and the folded order put every two keys alike. */
  predicate OrdersAgree<T>(s: seq<Member<T>>) {
    forall i, j :: 0 <= i < |s| && 0 <= j < |s| ==> (Less(s[i].key, s[j].key) <==> Less(Fold(s[i].key), Fold(s[j].key)))
  }

  lemma AgreeingParts<T>(s: seq<Member<T>>, mid: nat)
    requires OrdersAgree(s) && mid <= |s|
    ensures StrictlySorted(s, true) == StrictlySorted(s, false)
    ensures OrdersAgree(s[..mid]) && OrdersAgree(s[mid..])
  {
    hide Less, Fold;
  }

  lemma SortStep<T>(s: seq<Member<T>>, caseSensitive: bool)
    ensures MergeSort(s, caseSensitive) ==
      if |s| <= 1 || StrictlySorted(s, caseSensitive) then s
      else Merge(MergeSort(s[..(|s| + 1) / 2], caseSensitive), MergeSort(s[(|s| + 1) / 2..], caseSensitive))
  {
    hide StrictlySorted, Merge;
  }

  lemma {:induction false} AgreeingSort<T>(s: seq<Member<T>>)
    requires OrdersAgree(s)
    ensures MergeSort(s, true) == MergeSort(s, false)
    decreases |s|
  {
    hide MergeSort, Merge, StrictlySorted, OrdersAgree;
    SortStep(s, true);
    SortStep(s, false);
    if |s| > 1 {
      var mid := (|s| + 1) / 2;
      AgreeingParts(s, mid);
      AgreeingSort(s[..mid]);
      AgreeingSort(s[mid..]);
    }
  }

  lemma AgreeingPermutation<T>(s: seq<Member<T>>, t: seq<Member<T>>)
    requires OrdersAgree(s) && multiset(s) == multiset(t)
    ensures OrdersAgree(t)
  {
    hide Less, Fold;
    forall i, j | 0 <= i < |t| && 0 <= j < |t|
      ensures Less(t[i].key, t[j].key) <==> Less(Fold(t[i].key), Fold(t[j].key))
    {
      assert t[i] in multiset(s) && t[j] in multiset(s);
      var a :| 0 <= a < |s| && s[a] == t[i];
      var b :| 0 <= b < |s| && s[b] == t[j];
    }
  }

  lemma AgreeingIsAlphabetical<T>(s: seq<Member<T>>)
    requires OrdersAgree(s)
    ensures Alphabetical(MergeSort(s, true))
  {
    AgreeingSort(s);
    AgreeingPermutation(s, MergeSort(s, false));
    MergeSortOrdered(s);
  }

  /** y stands somewhere in front of x. */
  ghost predicate Before<T>(s: seq<T>, y: T, x: T) {
    exists i, j :: 0 <= i < j < |s| && s[i] == y && s[j] == x
  }

  lemma BeforeCons<T>(h: T, s: seq<T>, y: T, x: T)
    requires Before(s, y, x) || (h == y && x in s)
    ensures Before([h] + s, y, x)
  {
    var r := [h] + s;
    if Before(s, y, x) {
      var i, j :| 0 <= i < j < |s| && s[i] == y && s[j] == x;
      assert r[i + 1] == y && r[j + 1] == x;
    } else {
      var j :| 0 <= j < |s| && s[j] == x;
      assert r[0] == y && r[j + 1] == x;
    }
  }

  lemma BeforeRest<T>(s: seq<T>, y: T, x: T)
    requires Before(s, y, x)
    ensures s != [] && (Before(s[1..], y, x) || (s[0] == y && x in s[1..]))
  {
    var i, j :| 0 <= i < j < |s| && s[i] == y && s[j] == x;
    assert s[1..][j - 1] == x;
    if i > 0 { assert s[1..][i - 1] == y; }
  }

  /** A merge keeps the order that elements have in its first list. */
  lemma {:induction false} MergeKeepsBefore<T>(a: seq<Member<T>>, b: seq<Member<T>>, y: Member<T>, x: Member<T>)
    requires Before(a, y, x)
    ensures Before(Merge(a, b), y, x)
    decreases |a| + |b|
  {
    hide Before, Less, Fold;
    BeforeRest(a, y, x);
    if b != [] {
      if Less(Fold(a[0].key), Fold(b[0].key)) {
        var rest := Merge(a[1..], b);
        if Before(a[1..], y, x) {
          MergeKeepsBefore(a[1..], b, y, x);
        } else {
          assert x in multiset(rest);
        }
        BeforeCons(a[0], rest, y, x);
      } else {
        MergeKeepsBefore(a, b[1..], y, x);
        BeforeCons(b[0], Merge(a, b[1..]), y, x);
      }
    }
  }

  /**
   * Two keys in front that are in folded order but not in the order of strcmp stay in the first half
   * down to a list of two, where the merge leaves them as they are.
   */
  lemma {:induction false} DiscordantPairStays<T>(y: Member<T>, x: Member<T>, rest: seq<Member<T>>)
    requires Less(Fold(y.key), Fold(x.key)) && !Less(y.key, x.key)
    ensures Before(MergeSort([y, x] + rest, true), y, x)
    decreases |rest|
  {
    hide Fold, Less, MergeSort, Merge, StrictlySorted, Before;
    var s := [y, x] + rest;
    var mid := (|s| + 1) / 2;
    PairUnsorted(y, x, rest);
    if rest == [] {
      assert s[..mid] == [y] && s[mid..] == [x];
      MergePair(y, x);
    } else {
      assert s[..mid] == [y, x] + rest[..mid - 2];
      DiscordantPairStays(y, x, rest[..mid - 2]);
      MergeKeepsBefore(MergeSort(s[..mid], true), MergeSort(s[mid..], true), y, x);
    }
  }

  lemma PairUnsorted<T>(y: Member<T>, x: Member<T>, rest: seq<Member<T>>)
    requires !Less(y.key, x.key)
    ensures var s := [y, x] + rest;
      var mid := (|s| + 1) / 2;
      MergeSort(s, true) == Merge(MergeSort(s[..mid], true), MergeSort(s[mid..], true))
  {
    hide Less, Merge, MergeSort;
    var s := [y, x] + rest;
    assert s[0] == y && s[0 + 1] == x;
    assert !StrictlySorted(s, true) by { assert !Less(Seen(s[0].key, true), Seen(s[0 + 1].key, true)); }
    SortStep(s, true);
  }

  lemma MergePair<T>(y: Member<T>, x: Member<T>)
    requires Less(Fold(y.key), Fold(x.key))
    ensures MergeSort([y], true) == [y] && MergeSort([x], true) == [x] && Merge([y], [x]) == [y, x]
    ensures Before([y, x], y, x)
  {
    assert [y][1..] == [] && Merge([], [x]) == [x];
    assert [y, x][0] == y && [y, x][1] == x;
  }

  lemma Picked<T>(s: seq<T>, i: nat)
    requires i < |s|
    ensures multiset(s) == multiset{s[i]} + multiset(Without(s, i))
  {
    assert s == s[..i] + [s[i]] + s[i + 1..];
  }

  /** Two members of a list, brought to its front. */
  lemma InFront<T>(s: seq<T>, i: nat, j: nat) returns (rest: seq<T>)
    requires i < |s| && j < |s| && i != j
    ensures multiset([s[i], s[j]] + rest) == multiset(s)
  {
    var t, k := Without(s, i), if j < i then j else j - 1;
    assert t[k] == s[j];
    rest := Without(t, k);
    Picked(s, i);
    Picked(t, k);
  }

  /** strcmp and the folded order put any two keys alike that folding does not make equal. */
  predicate PutAlike<T>(s: seq<Member<T>>) {
    forall i, j :: 0 <= i < |s| && 0 <= j < |s| && Fold(s[i].key) != Fold(s[j].key) ==>
      (Less(s[i].key, s[j].key) <==> Less(Fold(s[i].key), Fold(s[j].key)))
  }

  /** No two keys differ in case only. */
  predicate NoVariants<T>(s: seq<Member<T>>) {
    forall i, j :: 0 <= i < |s| && 0 <= j < |s| && Fold(s[i].key) == Fold(s[j].key) ==> s[i].key == s[j].key
  }

  lemma PutAlikeAgrees<T>(s: seq<Member<T>>)
    requires PutAlike(s) && NoVariants(s)
    ensures OrdersAgree(s)
  {
    forall i, j | 0 <= i < |s| && 0 <= j < |s|
      ensures Less(s[i].key, s[j].key) <==> Less(Fold(s[i].key), Fold(s[j].key))
    {
      LessTrichotomy(s[i].key, s[j].key);
      LessTrichotomy(Fold(s[i].key), Fold(s[j].key));
    }
  }

  lemma {:induction false} AlphabeticallySortedAscends<T>(s: seq<Member<T>>, i: nat, j: nat)
    requires StrictlySorted(s, true) && i < j < |s|
    ensures Less(s[i].key, s[j].key)
    decreases j - i
  {
    assert forall k :: 0 <= k < |s| - 1 ==> Seen(s[k].key, true) == s[k].key;
    if i + 1 < j {
      AlphabeticallySortedAscends(s, i + 1, j);
      LessTransitive(s[i].key, s[i + 1].key, s[j].key);
    }
  }

  lemma PutAlikeParts<T>(s: seq<Member<T>>, mid: nat)
    requires PutAlike(s) && mid <= |s|
    ensures PutAlike(s[..mid]) && PutAlike(s[mid..])
  {
    hide Less, Fold;
  }

  /** Such keys come out ordered by folded key, whichever early exits the sort takes. */
  lemma {:induction false} PutAlikeOrdered<T>(s: seq<Member<T>>)
    requires PutAlike(s)
    ensures Ordered(MergeSort(s, true))
    decreases |s|
  {
    hide MergeSort, Merge, Less, Fold;
    SortStep(s, true);
    if |s| > 1 {
      if StrictlySorted(s, true) {
        forall i, j | 0 <= i < j < |s| ensures !Less(Fold(s[j].key), Fold(s[i].key)) {
          AlphabeticallySortedAscends(s, i, j);
          LessTrichotomy(Fold(s[i].key), Fold(s[j].key));
          LessTrichotomy(s[i].key, s[j].key);
        }
      } else {
        var mid := (|s| + 1) / 2;
        PutAlikeParts(s, mid);
        PutAlikeOrdered(s[..mid]);
        PutAlikeOrdered(s[mid..]);
        MergeOrdered(MergeSort(s[..mid], true), MergeSort(s[mid..], true));
      }
    }
  }

  /** On a tie the merge takes the key of its second list first. */
  lemma {:induction false} MergeBreaksTies<T>(a: seq<Member<T>>, b: seq<Member<T>>, y: Member<T>, x: Member<T>)
    requires x in a && y in b && Ordered(b) && Fold(x.key) == Fold(y.key)
    ensures Before(Merge(a, b), y, x)
    decreases |a| + |b|
  {
    hide Before, Less, Fold, Merge;
    MergeCases(a, b);
    OrderedHead(b, y);
    if Less(Fold(a[0].key), Fold(b[0].key)) {
      MergeBreaksTies(a[1..], b, y, x);
      BeforeCons(a[0], Merge(a[1..], b), y, x);
    } else {
      var rest := Merge(a, b[1..]);
      if y in b[1..] {
        MergeBreaksTies(a, b[1..], y, x);
      } else {
        assert x in multiset(rest);
      }
      BeforeCons(b[0], rest, y, x);
    }
  }

  lemma MergeCases<T>(a: seq<Member<T>>, b: seq<Member<T>>)
    requires a != [] && b != []
    ensures Merge(a, b) ==
      if Less(Fold(a[0].key), Fold(b[0].key)) then [a[0]] + Merge(a[1..], b) else [b[0]] + Merge(a, b[1..])
  {
    hide Less, Fold;
  }

  lemma OrderedHead<T>(s: seq<Member<T>>, y: Member<T>)
    requires Ordered(s) && y in s
    ensures !Less(Fold(y.key), Fold(s[0].key)) && Ordered(s[1..])
  {
    var i :| 0 <= i < |s| && s[i] == y;
    LessTrichotomy(Fold(y.key), Fold(y.key));
    assert forall k :: 0 <= k < |s| - 1 ==> s[1..][k] == s[k + 1];
  }

  /** Two keys that differ in case only, in different halves of an unsorted list: the later one comes out first. */
  lemma VariantsSwap<T>(u: Member<T>, v: Member<T>, rest: seq<Member<T>>, x: Member<T>, y: Member<T>)
    requires PutAlike([u, v] + rest + [y]) && !Less(u.key, v.key) && x in [u, v] && Fold(x.key) == Fold(y.key)
    ensures Before(MergeSort([u, v] + rest + [y], true), y, x)
  {
    hide Fold, Less, MergeSort, Merge, StrictlySorted, Before, PutAlike, Ordered;
    var more := rest + [y];
    var s := [u, v] + more;
    assert s == [u, v] + rest + [y];
    var mid := (|s| + 1) / 2;
    PairUnsorted(u, v, more);
    PutAlikeParts(s, mid);
    PutAlikeOrdered(s[mid..]);
    assert s[..mid][0] == u && s[..mid][1] == v && s[mid..][|s| - mid - 1] == y;
    var a, b := MergeSort(s[..mid], true), MergeSort(s[mid..], true);
    assert x in multiset(s[..mid]) && y in multiset(s[mid..]);
    assert x in multiset(a) && y in multiset(b);
    MergeBreaksTies(a, b, y, x);
  }

  /** Three members of a list: two brought to its front, one to its end. */
  lemma AtBothEnds<T>(s: seq<T>, i: nat, k: nat, j: nat) returns (rest: seq<T>)
    requires i < |s| && j < |s| && k < |s| && i != j && i != k && j != k
    ensures multiset([s[i], s[k]] + rest + [s[j]]) == multiset(s)
    ensures multiset([s[k], s[i]] + rest + [s[j]]) == multiset(s)
  {
    var t := Without(s, j);
    var i', k' := if i < j then i else i - 1, if k < j then k else k - 1;
    assert t[i'] == s[i] && t[k'] == s[k];
    rest := InFront(t, i', k');
    Picked(s, j);
    ToTheEnd([s[i], s[k]] + rest, s[j], t);
    SwapFront(s[i], s[k], rest);
    ToTheEnd([s[k], s[i]] + rest, s[j], t);
  }

  lemma ToTheEnd<T>(a: seq<T>, y: T, t: seq<T>)
    requires multiset(a) == multiset(t)
    ensures multiset(a + [y]) == multiset{y} + multiset(t)
  {
  }

  lemma SwapFront<T>(u: T, v: T, rest: seq<T>)
    ensures multiset([v, u] + rest) == multiset([u, v] + rest)
  {
    assert multiset([v, u]) == multiset([u, v]);
    assert multiset([v, u] + rest) == multiset([v, u]) + multiset(rest);
    assert multiset([u, v] + rest) == multiset([u, v]) + multiset(rest);
  }

  lemma PutAlikePermutation<T>(s: seq<Member<T>>, t: seq<Member<T>>)
    requires PutAlike(s) && multiset(s) == multiset(t)
    ensures PutAlike(t)
  {
    hide Less, Fold;
    forall i, j | 0 <= i < |t| && 0 <= j < |t| && Fold(t[i].key) != Fold(t[j].key)
      ensures Less(t[i].key, t[j].key) <==> Less(Fold(t[i].key), Fold(t[j].key))
    {
      assert t[i] in multiset(s) && t[j] in multiset(s);
      var a :| 0 <= a < |s| && s[a] == t[i];
      var b :| 0 <= b < |s| && s[b] == t[j];
    }
  }

  /** Two keys are always put right, if strcmp and the folded order put them alike or folding makes them equal. */
  lemma TwoSorted<T>(p: seq<Member<T>>)
    requires |p| == 2 && PutAlike(p)
    ensures Alphabetical(MergeSort(p, true))
  {
    hide Less, Fold, MergeSort, Merge;
    SortStep(p, true);
    TwoInOrder(p);
    if !StrictlySorted(p, true) {
      assert p[..1] == [p[0]] && p[1..] == [p[1]];
      SortStep([p[0]], true);
      SortStep([p[1]], true);
      MergeOne(p[0], p[1]);
    }
    LessTrichotomy(p[0].key, p[1].key);
    LessTrichotomy(Fold(p[0].key), Fold(p[1].key));
  }

  lemma TwoInOrder<T>(p: seq<Member<T>>)
    requires |p| == 2
    ensures StrictlySorted(p, true) <==> Less(p[0].key, p[1].key)
  {
    hide Less;
    assert StrictlySorted(p, true) <==> Less(Seen(p[0].key, true), Seen(p[0 + 1].key, true));
  }

  lemma MergeOne<T>(x: Member<T>, y: Member<T>)
    ensures Merge([x], [y]) == if Less(Fold(x.key), Fold(y.key)) then [x, y] else [y, x]
  {
    hide Less, Fold;
    assert [x][1..] == [] && [y][1..] == [];
  }

  /**
   * The case-sensitive sort gives the order of strcmp for every arrangement of some members if and
   * only if strcmp and the folded order put any two of their keys alike that folding does not make
   * equal, and there are at most two members or no two keys that differ in case only.
   */
  lemma CaseSensitiveSortIsAlphabetical(ms: seq<Member<Json>>)
    ensures (forall p :: multiset(p) == multiset(ms) ==> Alphabetical(MergeSort(p, true))) <==>
      PutAlike(ms) && (|ms| <= 2 || NoVariants(ms))
  {
    if PutAlike(ms) && (|ms| <= 2 || NoVariants(ms)) {
      forall p | multiset(p) == multiset(ms) ensures Alphabetical(MergeSort(p, true)) { SortsRight(ms, p); }
    } else if !PutAlike(ms) {
      var p := Discordant(ms);
    } else {
      var p := Swapped(ms);
    }
  }

  lemma SortsRight(ms: seq<Member<Json>>, p: seq<Member<Json>>)
    requires PutAlike(ms) && (|ms| <= 2 || NoVariants(ms)) && multiset(p) == multiset(ms)
    ensures Alphabetical(MergeSort(p, true))
  {
    hide Less, Fold, MergeSort;
    assert |p| == |multiset(p)| == |ms|;
    if NoVariants(ms) {
      PutAlikeAgrees(ms);
      AgreeingPermutation(ms, p);
      AgreeingIsAlphabetical(p);
    } else {
      PutAlikePermutation(ms, p);
      if |p| == 2 { TwoSorted(p); } else { SortStep(p, true); }
    }
  }

  lemma NotAlphabetical(r: seq<Member<Json>>, y: Member<Json>, x: Member<Json>)
    requires Before(r, y, x) && Less(x.key, y.key)
    ensures !Alphabetical(r)
  {
    var k, l :| 0 <= k < l < |r| && r[k] == y && r[l] == x;
  }

  lemma Discordant(ms: seq<Member<Json>>) returns (p: seq<Member<Json>>)
    requires !PutAlike(ms)
    ensures multiset(p) == multiset(ms) && !Alphabetical(MergeSort(p, true))
  {
    hide MergeSort, Before, Alphabetical;
    var i, j := DiscordantPair(ms);
    var rest := InFront(ms, i, j);
    p := [ms[i], ms[j]] + rest;
    DiscordantPairStays(ms[i], ms[j], rest);
    LessTrichotomy(ms[i].key, ms[j].key);
    LessTrichotomy(Fold(ms[i].key), Fold(ms[j].key));
    NotAlphabetical(MergeSort(p, true), ms[i], ms[j]);
  }

  lemma DiscordantPair(ms: seq<Member<Json>>) returns (i: nat, j: nat)
    requires !PutAlike(ms)
    ensures i < |ms| && j < |ms| && i != j && Less(Fold(ms[i].key), Fold(ms[j].key)) && !Less(ms[i].key, ms[j].key)
  {
    i, j :| i < |ms| && j < |ms| && Fold(ms[i].key) != Fold(ms[j].key)
      && Less(ms[i].key, ms[j].key) != Less(Fold(ms[i].key), Fold(ms[j].key));
    LessTrichotomy(ms[i].key, ms[j].key);
    LessTrichotomy(Fold(ms[i].key), Fold(ms[j].key));
    if Less(ms[i].key, ms[j].key) {
      i, j := j, i;
    }
  }

  lemma Swapped(ms: seq<Member<Json>>) returns (p: seq<Member<Json>>)
    requires PutAlike(ms) && |ms| > 2 && !NoVariants(ms)
    ensures multiset(p) == multiset(ms) && !Alphabetical(MergeSort(p, true))
  {
    hide MergeSort, Before, Alphabetical, PutAlike, Less, Fold;
    var i, j, k := VariantPair(ms);
    var x, y, z := ms[i], ms[j], ms[k];
    var rest := AtBothEnds(ms, i, k, j);
    LessTrichotomy(x.key, z.key);
    var u, v := if Less(x.key, z.key) then z else x, if Less(x.key, z.key) then x else z;
    p := [u, v] + rest + [y];
    PutAlikePermutation(ms, p);
    VariantsSwap(u, v, rest, x, y);
    NotAlphabetical(MergeSort(p, true), y, x);
  }

  /** Two keys that differ in case only, the lower one first, and a third member. */
  lemma VariantPair(ms: seq<Member<Json>>) returns (i: nat, j: nat, k: nat)
    requires |ms| > 2 && !NoVariants(ms)
    ensures i < |ms| && j < |ms| && k < |ms| && i != j && i != k && j != k
    ensures Less(ms[i].key, ms[j].key) && Fold(ms[i].key) == Fold(ms[j].key)
  {
    i, j :| i < |ms| && j < |ms| && Fold(ms[i].key) == Fold(ms[j].key) && ms[i].key != ms[j].key;
    LessTrichotomy(ms[i].key, ms[j].key);
    if !Less(ms[i].key, ms[j].key) {
      i, j := j, i;
    }
    k := if i != 0 && j != 0 then 0 else if i != 1 && j != 1 then 1 else 2;
  }

  /** Two keys that it leaves in the wrong order: "a" and "B", although "B" is below "a". */
  lemma CaseSensitiveSortFails(a: Member<Json>, b: Member<Json>)
    requires a.key == "a" && b.key == "B"
    ensures Before(MergeSort([a, b], true), a, b) && Less(b.key, a.key)
  {
    assert Fold(a.key)[0] == 'a' && Fold(b.key)[0] == 'b';
    DiscordantPairStays(a, b, []);
    assert [a, b] + [] == [a, b];
  }

  /** Keys that differ in case only: "c", "A", "a" come out with "a" in front of "A". */
  lemma CaseVariantsFail(c: Member<Json>, upper: Member<Json>, lower: Member<Json>)
    requires c.key == "c" && upper.key == "A" && lower.key == "a"
    ensures Before(MergeSort([c, upper, lower], true), lower, upper) && Less(upper.key, lower.key)
  {
    hide MergeSort, Before;
    var s := [c, upper] + [] + [lower];
    assert Fold(c.key)[0] == 'c' && Fold(upper.key) == Fold(lower.key) && Fold(upper.key)[0] == 'a';
    assert s == [c, upper, lower];
    VariantsSwap(c, upper, [], upper, lower);
  }
}
