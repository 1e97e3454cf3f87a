// sort_list on the linked list itself: no node is made or lost, only next and prev change.
module ListSorting {
  import opened Texts
  import opened Documents
  import opened Nodes
  import opened Sorting

  /** Keys and nodes of a list, as the sort sees them. */
  type Entries = seq<Member<Node>>

  function Bare(k: Entries): (s: seq<Node>)
    ensures |s| == |k| && forall i :: 0 <= i < |k| ==> s[i] == k[i].value
  {
    seq(|k|, i requires 0 <= i < |k| => k[i].value)
  }

  ghost function NodesIn(k: Entries): set<Node> { set m | m in k :: m.value }

  /** The entries show the keys that the nodes have now. */
  ghost predicate Current(k: Entries)
    reads NodesIn(k)`key
  {
    forall i :: 0 <= i < |k| ==> k[i].value.key == k[i].key && '\0' !in k[i].key
  }

  /** A chain whose first node's prev may point anywhere, which is what sort_list returns. */
  ghost predicate List(list: Node?, s: seq<Node>)
    reads s
  {
    list == Head(s) && Chain(s)
  }

  /** The list, seen as its entries. */
  ghost predicate IsList(list: Node?, k: Entries)
    reads NodesIn(k)
  {
    BareWithin(k);
    List(list, Bare(k))
  }

  lemma BareWithin(k: Entries)
    ensures forall n :: n in Bare(k) ==> n in NodesIn(k)
  {
    forall n | n in Bare(k) ensures n in NodesIn(k) {
      var i :| 0 <= i < |Bare(k)| && Bare(k)[i] == n;
      assert k[i] in k;
    }
  }

  /** The test that a list needs no sorting. */
  method IsSorted(list: Node?, caseSensitive: bool, ghost k: Entries) returns (yes: bool)
    requires IsList(list, k) && Current(k)
    ensures yes <==> |k| <= 1 || StrictlySorted(k, caseSensitive)
  {
    ghost var s := Bare(k);
    if list == null || list.next == null {
      return true;
    }
    var current, below := list, -1;
    ghost var j := 0;
    while current.next != null && below < 0
      invariant 0 <= j < |s| && current == s[j]
      invariant forall i :: 0 <= i < j ==> Less(Seen(k[i].key, caseSensitive), Seen(k[i + 1].key, caseSensitive))
      invariant below >= 0 ==> j + 1 < |s| && !Less(Seen(k[j].key, caseSensitive), Seen(k[j + 1].key, caseSensitive))
      decreases |s| - j, if below < 0 then 1 else 0
    {
      below := CompareStrings(current.key, current.next.key, caseSensitive);
      if below < 0 {
        current := current.next;
        j := j + 1;
      }
    }
    return current.next == null;
  }

  /** Two pointers, one twice as fast as the other, find the middle. */
  method Middle(list: Node, ghost k: Entries) returns (second: Node)
    requires IsList(list, k) && |k| >= 2
    ensures (|k| + 1) / 2 < |k| && second == k[(|k| + 1) / 2].value
  {
    ghost var s := Bare(k);
    var slow: Node?, current: Node? := list, list;
    ghost var i: nat := 0;
    while current != null
      invariant slow == At(s, i) && current == At(s, 2 * i) && 2 * i <= |s| + 1
      decreases |s| + 2 - 2 * i
    {
      slow := slow.next;
      current := current.next;
      if current != null {
        current := current.next;
      }
      i := i + 1;
    }
    second := slow;
  }

  function At(s: seq<Node>, i: nat): Node? { if i < |s| then s[i] else null }

  // ----- merging

  predicate Apart(s: seq<Node>, t: seq<Node>) {
    forall i, j :: 0 <= i < |s| && 0 <= j < |t| ==> s[i] != t[j]
  }

  /** The rest of a chain. */
  lemma Rest(x: seq<Node>)
    requires Chain(x) && x != []
    ensures Chain(x[1..]) && x[0].next == Head(x[1..]) && x[0] !in x[1..]
  {
  }

  /** The merge so far: out is linked, x and y are still to be merged. */
  ghost predicate Merging(out: seq<Node>, x: seq<Node>, y: seq<Node>)
    reads out, x, y
  {
    NoRepeats(out) && Joined(out) && Chain(x) && Chain(y) && Apart(out, x) && Apart(out, y) && Apart(x, y)
  }

  lemma MergingFlips(out: seq<Node>, x: seq<Node>, y: seq<Node>)
    requires Merging(out, x, y)
    ensures Merging(out, y, x)
  {
  }

  /** The smaller element starts the merged list or goes behind its tail; the head keeps its prev. */
  method Take(tail: Node?, smaller: Node, head: Node, ghost out: seq<Node>, ghost x: seq<Node>, ghost y: seq<Node>)
    returns (result: Node)
    requires Merging(out, x, y) && x != [] && smaller == x[0] && tail == Last(out) && (out != [] ==> head == out[0])
    modifies (if tail == null then {} else {tail})`next, (if tail == null then {} else {smaller})`prev
    ensures Merging(out + [smaller], x[1..], y) && smaller.next == Head(x[1..])
    ensures result == (out + [smaller])[0] && result.prev == old(result.prev)
    ensures result == if tail == null then smaller else head
  {
    result := smaller;
    if tail != null {
      result := head;
      tail.next := smaller;
      smaller.prev := tail;
    }
    ghost var r := out + [smaller];
    assert forall i :: 0 <= i < |r| ==> r[i] == if i < |out| then out[i] else smaller;
    assert forall i :: 0 <= i < |x| - 1 ==> x[1..][i] == x[i + 1];
  }

  /** The rest of one list goes behind the merged elements as it is. */
  method TakeRest(tail: Node, rest: Node, ghost out: seq<Node>, ghost x: seq<Node>)
    requires Merging(out, x, []) && x != [] && rest == x[0] && tail == Last(out)
    modifies tail`next, rest`prev
    ensures Chain(out + x) && Head(out + x) == out[0] && rest != out[0]
  {
    tail.next := rest;
    rest.prev := tail;
    ghost var r := out + x;
    assert forall i :: 0 <= i < |r| ==> r[i] == if i < |out| then out[i] else x[i - |out|];
  }

  function Last(s: seq<Node>): Node? { if s == [] then null else s[|s| - 1] }

  lemma BareRest(k: Entries)
    requires k != []
    ensures Bare(k) == [k[0].value] + Bare(k[1..]) && Bare(k)[1..] == Bare(k[1..])
  {
  }

  lemma BareConcat(k: Entries, l: Entries)
    ensures Bare(k + l) == Bare(k) + Bare(l)
  {
  }

  lemma BareAppend(k: Entries, m: Member<Node>)
    ensures Bare(k + [m]) == Bare(k) + [m.value]
  {
  }

  /** The same step, seen on the entries. */
  method TakeEntry(tail: Node?, smaller: Node, head: Node, ghost out: Entries, ghost x: Entries, ghost y: Entries,
                   ghost nodes: set<Node>)
    returns (result: Node)
    requires smaller in nodes && (tail != null ==> tail in nodes)
    requires Merging(Bare(out), Bare(x), Bare(y)) && x != [] && smaller == x[0].value
    requires tail == Last(Bare(out)) && (out != [] ==> head == out[0].value)
    modifies nodes`next, nodes`prev
    ensures Merging(Bare(out + [x[0]]), Bare(x[1..]), Bare(y)) && smaller.next == Head(Bare(x[1..]))
    ensures smaller == Last(Bare(out + [x[0]])) && result == (out + [x[0]])[0].value
    ensures result == (if tail == null then smaller else head) && result.prev == old(result.prev)
  {
    hide Merging;
    BareRest(x);
    BareAppend(out, x[0]);
    result := Take(tail, smaller, head, Bare(out), Bare(x), Bare(y));
  }

  method TakeSecond(tail: Node?, smaller: Node, head: Node, ghost out: Entries, ghost x: Entries, ghost y: Entries,
                    ghost nodes: set<Node>)
    returns (result: Node)
    requires smaller in nodes && (tail != null ==> tail in nodes)
    requires Merging(Bare(out), Bare(x), Bare(y)) && y != [] && smaller == y[0].value
    requires tail == Last(Bare(out)) && (out != [] ==> head == out[0].value)
    modifies nodes`next, nodes`prev
    ensures Merging(Bare(out + [y[0]]), Bare(x), Bare(y[1..])) && smaller.next == Head(Bare(y[1..]))
    ensures smaller == Last(Bare(out + [y[0]])) && result == (out + [y[0]])[0].value
    ensures result == (if tail == null then smaller else head) && result.prev == old(result.prev)
  {
    hide Merging, Bare;
    MergingFlips(Bare(out), Bare(x), Bare(y));
    result := TakeEntry(tail, smaller, head, out, y, x, nodes);
    MergingFlips(Bare(out + [y[0]]), Bare(y[1..]), Bare(x));
  }

  lemma Entry(a: Entries, i: nat)
    requires i < |a|
    ensures a[i..][0] == a[i] && a[i..][1..] == a[i + 1..] && a[i].value in NodesIn(a)
  {
  }

  lemma KeyAt(a: Entries, i: nat)
    requires Current(a) && i < |a|
    ensures a[i].value.key == a[i].key && '\0' !in a[i].key
  {
  }

  lemma MergeStep(o: Entries, k: Entries, l: Entries)
    requires k != [] && l != []
    ensures o + Merge(k, l) ==
      if Less(Fold(k[0].key), Fold(l[0].key)) then (o + [k[0]]) + Merge(k[1..], l) else (o + [l[0]]) + Merge(k, l[1..])
  {
    Assoc(o, [k[0]], Merge(k[1..], l));
    Assoc(o, [l[0]], Merge(k, l[1..]));
  }

  /** What is merged already, and the rest of both lists. */
  ghost predicate Split(a: Entries, b: Entries, out: Entries, x: Entries, y: Entries, i: nat, j: nat) {
    i <= |a| && x == a[i..] && j <= |b| && y == b[j..] && out + Merge(x, y) == Merge(a, b)
  }

  lemma SplitStep(a: Entries, b: Entries, out: Entries, x: Entries, y: Entries, i: nat, j: nat)
    requires Split(a, b, out, x, y, i, j) && Current(a) && Current(b) && x != [] && y != []
    ensures x[0].value in NodesIn(a) && x[0].value.key == x[0].key && '\0' !in x[0].key
    ensures y[0].value in NodesIn(b) && y[0].value.key == y[0].key && '\0' !in y[0].key
    ensures if Less(Fold(x[0].key), Fold(y[0].key)) then Split(a, b, out + [x[0]], x[1..], y, i + 1, j)
      else Split(a, b, out + [y[0]], x, y[1..], i, j + 1)
  {
    hide Less, Fold, Merge, NodesIn, Current;
    MergeStep(out, x, y);
    Entry(a, i);
    Entry(b, j);
    KeyAt(a, i);
    KeyAt(b, j);
  }

  /** One of the lists is used up; the other goes behind what is merged. */
  lemma SplitEnd(a: Entries, b: Entries, out: Entries, x: Entries, y: Entries, i: nat, j: nat)
    requires Split(a, b, out, x, y, i, j)
    ensures x != [] ==> x[0].value in NodesIn(a)
    ensures y != [] ==> y[0].value in NodesIn(b)
    ensures out + Merge(x, y) == Merge(a, b)
  {
    hide Merge, NodesIn;
    if i < |a| { Entry(a, i); }
    if j < |b| { Entry(b, j); }
  }

  lemma FirstEntry(k: Entries)
    ensures Head(Bare(k)) == if k == [] then null else k[0].value
    ensures Last(Bare(k)) == if k == [] then null else k[|k| - 1].value
  {
  }

  /** The merge loop of sort_list, on two lists that are not empty. */
  method MergeLists(list1: Node, list2: Node, ghost a: Entries, ghost b: Entries) returns (result: Node)
    requires IsList(list1, a) && IsList(list2, b) && Apart(Bare(a), Bare(b)) && Current(a) && Current(b)
    modifies NodesIn(a)`next, NodesIn(a)`prev, NodesIn(b)`next, NodesIn(b)`prev
    ensures IsList(result, Merge(a, b))
    ensures (result == list1 || result == list2) && result.prev == old(result.prev)
  {
    hide Merge, Less, Fold, Merging, Bare, Chain, Head, Last, NodesIn, Apart, Split;
    var first: Node?, second: Node?, tail: Node? := list1, list2, null;
    result := list1;
    ghost var out: Entries, x: Entries, y: Entries := [], a, b;
    MergingStarts(a, b);
    FirstEntry(out);
    ghost var nodes, i: nat, j: nat := NodesIn(a) + NodesIn(b), 0, 0;
    while first != null && second != null
      invariant first == Head(Bare(x)) && second == Head(Bare(y)) && Merging(Bare(out), Bare(x), Bare(y))
      invariant Split(a, b, out, x, y, i, j) && (x != [] || y != [])
      invariant (tail == null <==> out == []) && (tail != null ==> tail in nodes)
      invariant tail == Last(Bare(out)) && (out != [] ==> result == out[0].value)
      invariant (result == list1 || result == list2) && result.prev == old(result.prev)
      invariant tail == null ==> first == list1 && second == list2
      invariant tail == null ==> list1.prev == old(list1.prev) && list2.prev == old(list2.prev)
      decreases |x| + |y|
    {
      FirstEntry(x);
      FirstEntry(y);
      FirstEntry(out);
      SplitStep(a, b, out, x, y, i, j);
      var diff := CompareStrings(first.key, second.key, false);
      if diff < 0 {
        result := TakeEntry(tail, first, result, out, x, y, nodes);
        tail, out, x, i := first, out + [x[0]], x[1..], i + 1;
        first := first.next;
      } else {
        result := TakeSecond(tail, second, result, out, x, y, nodes);
        tail, out, y, j := second, out + [y[0]], y[1..], j + 1;
        second := second.next;
      }
    }
    FirstEntry(x);
    FirstEntry(y);
    FirstEntry(out);
    SplitEnd(a, b, out, x, y, i, j);
    AppendRest(tail, first, second, out, x, y);
  }

  /** The end of sort_list: what is left of one list goes behind the merged elements. */
  method AppendRest(tail: Node, first: Node?, second: Node?, ghost out: Entries, ghost x: Entries, ghost y: Entries)
    requires Merging(Bare(out), Bare(x), Bare(y)) && out != [] && (x == [] || y == []) && (x != [] || y != [])
    requires tail == Last(Bare(out)) && first == Head(Bare(x)) && second == Head(Bare(y))
    modifies tail`next, (if first == null then {} else {first})`prev, (if second == null then {} else {second})`prev
    ensures Chain(Bare(out + Merge(x, y))) && Head(Bare(out + Merge(x, y))) == out[0].value
    ensures out[0].value.prev == old(out[0].value.prev)
  {
    BareConcat(out, x);
    BareConcat(out, y);
    MergeEmpty(x, y);
    FirstEntry(x);
    FirstEntry(y);
    FirstEntry(out);
    hide Merging, Merge, Bare, Head, Last;
    if first != null {
      TakeRest(tail, first, Bare(out), Bare(x));
    }
    if second != null {
      MergingFlips(Bare(out), Bare(x), Bare(y));
      TakeRest(tail, second, Bare(out), Bare(y));
    }
  }

  lemma MergeEmpty(k: Entries, l: Entries)
    ensures k == [] ==> Merge(k, l) == l
    ensures l == [] ==> Merge(k, l) == k
  {
  }

  lemma MergingStarts(a: Entries, b: Entries)
    requires Chain(Bare(a)) && Chain(Bare(b)) && Apart(Bare(a), Bare(b))
    ensures Merging(Bare([]), Bare(a), Bare(b)) && Split(a, b, [], a, b, 0, 0)
  {
  }

  // ----- sorting

  lemma Halves(k: Entries, mid: nat)
    requires NoRepeats(Bare(k)) && mid <= |k|
    ensures Bare(k[..mid]) == Bare(k)[..mid] && Bare(k[mid..]) == Bare(k)[mid..]
    ensures NodesIn(k[..mid]) !! NodesIn(k[mid..]) && NodesIn(k[..mid]) + NodesIn(k[mid..]) == NodesIn(k)
  {
    var a, b := k[..mid], k[mid..];
    assert k == a + b;
    forall i, j | 0 <= i < |a| && 0 <= j < |b| ensures a[i].value != b[j].value {
      assert Bare(k)[i] == a[i].value && Bare(k)[mid + j] == b[j].value;
    }
  }

  /** Cutting a list in the middle. */
  method Cut(second: Node, ghost k: Entries, ghost mid: nat)
    requires 0 < mid < |k| && IsList(k[0].value, k) && second == k[mid].value
    modifies NodesIn(k[..mid])`next
    ensures IsList(k[0].value, k[..mid]) && IsList(second, k[mid..])
  {
    Halves(k, mid);
    FirstEntry(k);
    Entry(k[..mid], mid - 1);
    FirstEntry(k[..mid]);
    FirstEntry(k[mid..]);
    hide NodesIn;
    CutChain(second, Bare(k), mid);
  }

  method CutChain(second: Node, ghost s: seq<Node>, ghost mid: nat)
    requires 0 < mid < |s| && Chain(s) && second == s[mid]
    modifies {s[mid - 1]}`next
    ensures Chain(s[..mid]) && Chain(s[mid..])
  {
    assert second.prev == s[mid - 1];
    if second.prev != null {
      second.prev.next := null;
    }
    assert forall i :: 0 <= i < |s| - mid ==> s[mid..][i] == s[mid + i];
  }

  /** The entries of the same nodes in another order. */
  lemma Permuted(k: Entries, l: Entries)
    requires multiset(k) == multiset(l)
    ensures NodesIn(k) == NodesIn(l) && (Current(k) ==> Current(l))
  {
    assert forall m :: m in k <==> m in multiset(k);
    assert forall m :: m in l <==> m in multiset(l);
    forall i | 0 <= i < |l| && Current(k) ensures l[i].value.key == l[i].key && '\0' !in l[i].key {
      assert l[i] in k;
      var j :| 0 <= j < |k| && k[j] == l[i];
    }
  }

  lemma ApartByNodes(k: Entries, l: Entries)
    requires NodesIn(k) !! NodesIn(l)
    ensures Apart(Bare(k), Bare(l))
  {
    forall i, j | 0 <= i < |k| && 0 <= j < |l| ensures Bare(k)[i] != Bare(l)[j] {
      assert k[i] in k && l[j] in l;
      assert k[i].value in NodesIn(k) && l[j].value in NodesIn(l);
    }
  }

  /**
   * sort_list: the same nodes, linked in the order of the merge sort; every prev behind the head
   * is right (the head's own is stale), and a sorted list is not touched.
   */
  method SortList(list: Node?, caseSensitive: bool, ghost k: Entries) returns (result: Node?)
    requires IsList(list, k) && Current(k)
    modifies NodesIn(k)`next, NodesIn(k)`prev
    ensures IsList(result, MergeSort(k, caseSensitive))
    ensures k != [] ==> result != null && result in NodesIn(k) && result.prev == old(result.prev)
    ensures |k| <= 1 || StrictlySorted(k, caseSensitive) ==> result == list && unchanged(NodesIn(k))
    decreases |k|, 1
  {
    hide MergeSort, Merge, Current, StrictlySorted, IsList, Bare;
    SortSetup(list, k, caseSensitive);
    var sorted := IsSorted(list, caseSensitive, k);
    if sorted {
      return list;
    }
    var second := Middle(list, k);
    ghost var mid := (|k| + 1) / 2;
    Cut(second, k, mid);
    result := SortHalves(list, second, caseSensitive, k[..mid], k[mid..]);
  }

  /** The end of sort_list: both halves are sorted and merged. */
  method SortHalves(list1: Node, list2: Node, caseSensitive: bool, ghost a: Entries, ghost b: Entries) returns (result: Node)
    requires a != [] && b != [] && IsList(list1, a) && IsList(list2, b) && Current(a) && Current(b)
    requires NodesIn(a) !! NodesIn(b)
    modifies NodesIn(a)`next, NodesIn(a)`prev, NodesIn(b)`next, NodesIn(b)`prev
    ensures IsList(result, Merge(MergeSort(a, caseSensitive), MergeSort(b, caseSensitive)))
    ensures result in NodesIn(a) + NodesIn(b) && result.prev == old(result.prev)
    decreases |a| + |b|, 0
  {
    hide MergeSort, Current, Bare, Apart, Merge, IsList;
    SortedHalves(a, b, caseSensitive);
    var first := SortList(list1, caseSensitive, a);
    var second := SortList(list2, caseSensitive, b);
    result := MergeLists(first, second, MergeSort(a, caseSensitive), MergeSort(b, caseSensitive));
  }

  lemma SortedHalves(a: Entries, b: Entries, caseSensitive: bool)
    requires Current(a) && Current(b) && NodesIn(a) !! NodesIn(b)
    ensures var a', b' := MergeSort(a, caseSensitive), MergeSort(b, caseSensitive);
      && NodesIn(a') == NodesIn(a) && NodesIn(b') == NodesIn(b)
      && Current(a') && Current(b') && Apart(Bare(a'), Bare(b'))
  {
    var a', b' := MergeSort(a, caseSensitive), MergeSort(b, caseSensitive);
    Permuted(a, a');
    Permuted(b, b');
    ApartByNodes(a', b');
  }

  /** What sort_list needs to know of its list, sorted already or cut into halves. */
  lemma SortSetup(list: Node?, k: Entries, caseSensitive: bool)
    requires IsList(list, k) && Current(k)
    ensures if k == [] then list == null else list == k[0].value && k[0].value in NodesIn(k)
    ensures |k| <= 1 || StrictlySorted(k, caseSensitive) ==> MergeSort(k, caseSensitive) == k
    ensures |k| > 1 ==> var a, b := k[..(|k| + 1) / 2], k[(|k| + 1) / 2..];
      && Current(a) && Current(b) && NodesIn(a) !! NodesIn(b) && NodesIn(a) + NodesIn(b) == NodesIn(k)
      && (!StrictlySorted(k, caseSensitive) ==>
            MergeSort(k, caseSensitive) == Merge(MergeSort(a, caseSensitive), MergeSort(b, caseSensitive)))
  {
    hide StrictlySorted, Merge;
    FirstEntry(k);
    Halves(k, (|k| + 1) / 2);
  }

  /** sort_object. */
  method SortObject(parent: Node, caseSensitive: bool, ghost k: Entries)
    requires parent !in NodesIn(k) && IsList(parent.child, k) && Current(k)
    modifies parent`child, NodesIn(k)`next, NodesIn(k)`prev
    ensures IsList(parent.child, MergeSort(k, caseSensitive))
    ensures var head := parent.child; k != [] ==> head != null && head in NodesIn(k) && head.prev == old(head.prev)
  {
    hide MergeSort, IsList, Current, Bare;
    Permuted(k, MergeSort(k, caseSensitive));
    var list := SortList(parent.child, caseSensitive, k);
    parent.child := list;
  }

  /** What the children of an object are to the sort, and where the sort may put a new head. */
  lemma SortingChildren(parent: Node, k: Entries)
    requires Children(parent, Bare(k)) && Current(k) && k != []
    ensures parent !in NodesIn(k) && IsList(parent.child, k)
    ensures var r := MergeSort(k, false);
      |r| == |k| && NodesIn(r) == NodesIn(k) && Current(r) && exists i :: Came(k, r[0], i)
  {
    var r := MergeSort(k, false);
    Permuted(k, r);
    assert r[0] in multiset(k);
    var i :| 0 <= i < |k| && k[i] == r[0];
    assert Came(k, r[0], i) by { if i > 0 { assert Bare(k)[i].prev == Bare(k)[i - 1]; } }
    forall n | n in NodesIn(k) ensures n != parent {
      var m :| m in k && m.value == n;
      var j :| 0 <= j < |k| && k[j] == m;
      assert Bare(k)[j] == n;
    }
  }

  lemma NodesDiffer(s: seq<Node>)
    requires Chain(s)
    ensures NoRepeats(s)
  {
  }

  /** The entry m stands at index i of k. */
  ghost predicate Came(k: Entries, m: Member<Node>, i: nat)
    reads if i < |k| then {k[i].value} else {}
  {
    i < |k| && k[i] == m && k[i].value.prev == if i == 0 then null else At(Bare(k), i - 1)
  }

  /** cJSON_DetachItemViaPointer, when the prev of the first child is NULL or points at another child. */
  method DetachLinked(parent: Node, item: Node, ghost s: seq<Node>, ghost j: nat)
    requires parent !in s && List(parent.child, s) && j < |s| && s[j] == item
    requires s[0].prev == null || s[0].prev in s[1..]
    modifies parent`child, s`next, s`prev
    ensures Children(parent, Without(s, j)) <==> old(s[0].prev) == null
    ensures j > 0 ==> List(parent.child, Without(s, j))
    ensures j == 0 && old(s[0].prev) != null ==> |s| > 1 && parent.child == s[1] == old(s[0].prev).next
  {
    hide NoRepeats;
    Taken(s, j);
    if item.prev != null {
      item.prev.next := item.next;
    }
    if item.next != null {
      item.next.prev := item.prev;
    }
    if item == parent.child {
      parent.child := item.next;
    }
    item.prev := null;
    item.next := null;
    ghost var r := Without(s, j);
    assert j > 0 || old(s[0].prev) == null ==> Joined(r) by {
      if j > 0 || old(s[0].prev) == null {
        forall i {:trigger r[i].next} | 0 <= i < |r| - 1 ensures r[i].next == r[i + 1] {}
        forall i {:trigger r[i].prev} | 0 < i < |r| ensures r[i].prev == r[i - 1] {}
      }
    }
  }

  lemma SortedHead(k: Entries, r: Entries, i: nat)
    requires NoRepeats(Bare(k)) && NoRepeats(Bare(r)) && r != [] && i < |k| && k[i] == r[0] && multiset(r) == multiset(k)
    ensures r[0].value == k[0].value <==> i == 0
    ensures i > 0 ==> k[i - 1].value in Bare(r)[1..]
  {
    assert Bare(k)[i] == k[i].value && Bare(k)[0] == k[0].value;
    if i > 0 {
      assert Bare(k)[i - 1] == k[i - 1].value;
      assert k[i - 1] in multiset(r);
      var j :| 0 <= j < |r| && r[j] == k[i - 1];
      assert Bare(r)[1..][j - 1] == k[i - 1].value;
    }
  }

  /** An object whose first child changes: keys "b" and "a". */
  lemma SortMovesHead(k: Entries)
    requires |k| == 2 && k[0].key == "b" && k[1].key == "a"
    ensures MergeSort(k, false) == [k[1], k[0]]
  {
    hide MergeSort;
    var a, b := [k[0]], [k[1]];
    assert Fold("b")[0] == 'b' && Fold("a")[0] == 'a' && !Less(Fold("b"), Fold("a"));
    assert !StrictlySorted(k, false) by { assert !Less(Seen(k[0].key, false), Seen(k[0 + 1].key, false)); }
    SortStep(k, false);
    SortStep(a, false);
    SortStep(b, false);
    assert k[..1] == a && k[1..] == b;
    MergeOne(k[0], k[1]);
  }

  /**
   * Sorting an object and detaching one of its items. The prev of the new first child still points
   * at the child that was in front of it, so the statements of cJSON_DetachItemViaPointer leave a
   * doubly linked list of the other children if and only if the sort kept the first child. Else the
   * next links are right unless it is the first child that goes; then one of them closes a ring.
   */
  method DetachFromSorted(parent: Node, item: Node, ghost k: Entries, ghost j: nat)
    requires Children(parent, Bare(k)) && Current(k) && j < |k| && item == MergeSort(k, false)[j].value
    modifies parent`child, NodesIn(k)`next, NodesIn(k)`prev
    ensures Children(parent, Without(Bare(MergeSort(k, false)), j)) <==> MergeSort(k, false)[0].value == k[0].value
    ensures j > 0 ==> List(parent.child, Without(Bare(MergeSort(k, false)), j))
    ensures j == 0 && MergeSort(k, false)[0].value != k[0].value ==>
      exists n :: n in Bare(MergeSort(k, false))[1..] && parent.child != null && n.next == parent.child
  {
    hide MergeSort, Current, NodesIn, Chain, Joined, Without;
    ghost var r := MergeSort(k, false);
    SortingChildren(parent, k);
    NodesDiffer(Bare(k));
    ghost var i :| Came(k, r[0], i);
    SortObject(parent, false, k);
    BareWithin(r);
    NodesDiffer(Bare(r));
    SortedHead(k, r, i);
    assert parent.child == Bare(r)[0] == r[0].value;
    assert parent !in Bare(r);
    assert i > 0 ==> Bare(r)[0].prev == k[i - 1].value;
    assert i == 0 ==> Bare(r)[0].prev == null;
    assert Bare(r)[j] == item;
    DetachLinked(parent, item, Bare(r), j);
  }
}
