// cJSON_Compare on the nodes: a node is equal to itself, whatever hangs below it. Where no node is
// shared, and on all valid trees, this is the comparison of values.
module Equality {
  import opened Texts
  import opened Documents
  import opened Comparing
  import opened Nodes
  import opened Trees

  /** cJSON_Compare, case-insensitive, on two pictured trees. */
  predicate CompareShapes(a: Shape, b: Shape)
    decreases Height(ToJson(a)) + Height(ToJson(b)), 1
  {
    if a.data.tag != b.data.tag || a.data.tag.INVALID? then false
    else if a.node == b.node then true
    else match a.data.tag
      case NUMBER => a.data.valuedouble == b.data.valuedouble
      case STRING => a.data.valuestring == b.data.valuestring
      case ARRAY =>
        && |a.kids| == |b.kids|
        && forall i :: 0 <= i < |a.kids| ==> (ItemBelow(a, i); ItemBelow(b, i); CompareShapes(a.kids[i], b.kids[i]))
      case OBJECT => CoversShapes(a, b) && CoversShapes(b, a)
      case _ => true
  }

  /** Every child of the first object has an equal child in the second. */
  predicate CoversShapes(a: Shape, b: Shape)
    requires a.data.tag == b.data.tag == OBJECT
    decreases Height(ToJson(a)) + Height(ToJson(b)), 0
  {
    forall i :: 0 <= i < |a.kids| ==>
      var k := FindKey(b.kids, a.kids[i].data.key);
      k < |b.kids| && (MemberBelow(a, i); MemberBelow(b, k); CompareShapes(a.kids[i], b.kids[k]))
  }

  function FindKey(kids: seq<Shape>, name: string): (i: nat)
    ensures i <= |kids|
    ensures forall k :: 0 <= k < i ==> Fold(kids[k].data.key) != Fold(name)
    ensures i < |kids| ==> Fold(kids[i].data.key) == Fold(name)
  {
    Find(ToMembers(kids), name)
  }

  lemma ItemBelow(t: Shape, i: nat)
    requires t.data.tag == ARRAY && i < |t.kids|
    ensures Height(ToJson(t.kids[i])) < Height(ToJson(t))
  {
    ItemIsLower(ToItems(t.kids), i);
  }

  lemma MemberBelow(t: Shape, i: nat)
    requires t.data.tag == OBJECT && i < |t.kids|
    ensures Height(ToJson(t.kids[i])) < Height(ToJson(t))
  {
    MemberIsLower(ToMembers(t.kids), i);
  }

  // ----- the loops

  /** get_object_item, case-insensitive. */
  method GetObjectItem(parent: Node, name: string, ghost kids: seq<Shape>) returns (item: Node?)
    requires Reaches(parent.child, kids) && HasAll(kids) && '\0' !in name
    ensures item == KidNode(kids, FindKey(kids, name))
  {
    hide FindKey, Fold;
    NodesExistAll(kids);
    item := parent.child;
    ghost var k: nat := 0;
    while item != null
      invariant HasAll(kids) && k <= |kids| && item == KidNode(kids, k)
      invariant forall i :: 0 <= i < k ==> Fold(kids[i].data.key) != Fold(name)
      decreases |kids| - k
    {
      assert Has(kids[k]);
      var diff := CompareStrings(name, item.key, false);
      if diff == 0 {
        break;
      }
      item := item.next;
      k := k + 1;
    }
  }

  /** A child of a pictured tree. */
  lemma Kid(t: Shape, i: nat)
    requires Has(t) && i < |t.kids|
    ensures Has(t.kids[i]) && KidNode(t.kids, i) == t.kids[i].node
    ensures t.kids[i].node.next == KidNode(t.kids, i + 1)
    ensures t.kids[i].node.key == t.kids[i].data.key && '\0' !in t.kids[i].data.key
  {
  }

  lemma FirstKid(t: Shape)
    requires Has(t)
    ensures t.node.child == KidNode(t.kids, 0) && Reaches(t.node.child, t.kids) && HasAll(t.kids)
    ensures forall i :: |t.kids| <= i ==> KidNode(t.kids, i) == null
  {
  }

  method CompareNodes(a: Node?, b: Node?, ghost s: Shape, ghost t: Shape) returns (equal: bool)
    requires (a != null ==> a == s.node && Has(s)) && (b != null ==> b == t.node && Has(t))
    ensures equal <==> a != null && b != null && CompareShapes(s, t)
    decreases Height(ToJson(s)) + Height(ToJson(t)), 1
  {
    if a == null || b == null || a.tag != b.tag || a.tag == INVALID {
      return false;
    }
    if a == b {
      return true;
    }
    NodesExist(s);
    NodesExist(t);
    match a.tag {
      case NUMBER =>
        return a.valuedouble == b.valuedouble;
      case STRING =>
        return a.valuestring == b.valuestring;
      case ARRAY =>
        equal := CompareChildren(a, b, s, t);
      case OBJECT =>
        equal := CompareByKey(a, b, s, t);
        if equal {
          // once more with the objects exchanged, so that no child of b is left over
          equal := CompareByKey(b, a, t, s);
        }
      case _ =>
        return true;
    }
  }

  method CompareChildren(a: Node, b: Node, ghost s: Shape, ghost t: Shape) returns (equal: bool)
    requires a == s.node && Has(s) && b == t.node && Has(t) && s.data.tag == t.data.tag == ARRAY
    ensures equal <==>
      |s.kids| == |t.kids| && forall i :: 0 <= i < |s.kids| ==> CompareShapes(s.kids[i], t.kids[i])
    decreases Height(ToJson(s)) + Height(ToJson(t)), 0
  {
    hide CompareShapes, Height, Has, HasAll, Reaches, NodesOf, NodesOfAll, ToJson, KidNode;
    NodesExist(s);
    NodesExist(t);
    FirstKid(s);
    FirstKid(t);
    var x, y := a.child, b.child;
    ghost var i: nat := 0;
    while x != null && y != null
      invariant Has(s) && Has(t) && i <= |s.kids| && i <= |t.kids| && x == KidNode(s.kids, i) && y == KidNode(t.kids, i)
      invariant forall k :: 0 <= k < i ==> CompareShapes(s.kids[k], t.kids[k])
      decreases |s.kids| - i
    {
      ItemBelow(s, i);
      ItemBelow(t, i);
      Kid(s, i);
      Kid(t, i);
      var same := CompareNodes(x, y, s.kids[i], t.kids[i]);
      if !same {
        return false;
      }
      Kid(s, i);
      Kid(t, i);
      x, y, i := x.next, y.next, i + 1;
    }
    if i < |s.kids| { Kid(s, i); }
    if i < |t.kids| { Kid(t, i); }
    return x == y;
  }

  method CompareByKey(a: Node, b: Node, ghost s: Shape, ghost t: Shape) returns (equal: bool)
    requires a == s.node && Has(s) && b == t.node && Has(t) && s.data.tag == t.data.tag == OBJECT
    ensures equal <==> CoversShapes(s, t)
    decreases Height(ToJson(s)) + Height(ToJson(t)), 0
  {
    hide CompareShapes, Height, FindKey, Has, HasAll, Reaches, NodesOf, NodesOfAll, ToJson, KidNode;
    NodesExist(s);
    NodesExist(t);
    FirstKid(s);
    var x := a.child;
    ghost var i: nat := 0;
    while x != null
      invariant Has(s) && Has(t) && i <= |s.kids| && x == KidNode(s.kids, i)
      invariant forall k :: 0 <= k < i ==>
        var l := FindKey(t.kids, s.kids[k].data.key); l < |t.kids| && CompareShapes(s.kids[k], t.kids[l])
      decreases |s.kids| - i
    {
      Kid(s, i);
      FirstKid(t);
      var y := GetObjectItem(b, x.key, t.kids);
      ghost var l := FindKey(t.kids, s.kids[i].data.key);
      if y == null {
        if l < |t.kids| { Kid(t, l); }
        return false;
      }
      Kid(s, i);
      Kid(t, l);
      MemberBelow(s, i);
      MemberBelow(t, l);
      var same := CompareNodes(x, y, s.kids[i], t.kids[l]);
      if !same {
        return false;
      }
      Kid(s, i);
      x, i := x.next, i + 1;
    }
    if i < |s.kids| { Kid(s, i); }
    return true;
  }

  // ----- what it decides

  /** Within one heap, a node has one picture. */
  lemma {:induction false} OnePicture(a: Shape, b: Shape)
    requires Has(a) && Has(b) && a.node == b.node
    ensures a == b
    decreases a
  {
    SameLength(a.node.child, a.kids, b.kids);
    forall i | 0 <= i < |a.kids| ensures a.kids[i] == b.kids[i] {
      OnePicture(a.kids[i], b.kids[i]);
    }
    assert a.kids == b.kids;
  }

  lemma SameLength(first: Node?, k: seq<Shape>, l: seq<Shape>)
    requires Reaches(first, k) && Reaches(first, l)
    ensures |k| == |l| && forall i :: 0 <= i < |k| ==> k[i].node == l[i].node
  {
    var n := if |k| < |l| then |k| else |l|;
    var i := 0;
    while i < n
      invariant 0 <= i <= n && (i < |k| || i < |l| ==> KidNode(k, i) == KidNode(l, i))
      invariant forall j :: 0 <= j < i ==> k[j].node == l[j].node
    {
      assert k[i].node.next == KidNode(k, i + 1) && l[i].node.next == KidNode(l, i + 1);
      i := i + 1;
    }
  }

  lemma FindKeyIsField(kids: seq<Shape>, name: string)
    requires DistinctMembers(ToMembers(kids))
    ensures FindKey(kids, name) < |kids| <==> Fold(name) in Fields(ToMembers(kids))
    ensures var k := FindKey(kids, name);
      k < |kids| ==> Fields(ToMembers(kids))[Fold(name)] == Abs(ToJson(kids[k])) && Distinct(ToJson(kids[k]))
  {
    hide Fold;
    FindIsField(ToMembers(kids), name);
  }

  /** A match of values is a match of nodes. */
  lemma {:induction false} SharingKeepsMatches(a: Shape, b: Shape)
    requires Comparing.Compare(ToJson(a), ToJson(b))
    ensures CompareShapes(a, b)
    decreases Height(ToJson(a)) + Height(ToJson(b)), 1
  {
    if a.node != b.node {
      if a.data.tag == ARRAY {
        forall i | 0 <= i < |a.kids| ensures CompareShapes(a.kids[i], b.kids[i]) {
          ItemBelow(a, i);
          ItemBelow(b, i);
          SharingKeepsMatches(a.kids[i], b.kids[i]);
        }
      } else if a.data.tag == OBJECT {
        SharingKeepsCovers(a, b);
        SharingKeepsCovers(b, a);
      }
    }
  }

  lemma {:induction false} SharingKeepsCovers(a: Shape, b: Shape)
    requires a.data.tag == b.data.tag == OBJECT && Covers(ToMembers(a.kids), ToMembers(b.kids))
    ensures CoversShapes(a, b)
    decreases Height(ToJson(a)) + Height(ToJson(b)), 0
  {
    hide Fold;
    var xs, ys := ToMembers(a.kids), ToMembers(b.kids);
    forall i | 0 <= i < |a.kids|
      ensures var k := FindKey(b.kids, a.kids[i].data.key); k < |b.kids| && CompareShapes(a.kids[i], b.kids[k])
    {
      var k := Find(ys, xs[i].key);
      MemberBelow(a, i);
      MemberBelow(b, k);
      SharingKeepsMatches(a.kids[i], b.kids[k]);
    }
  }

  lemma BlurredItems(xs: seq<Doc>)
    ensures Blur(DArray(xs)).DArray? && |Blur(DArray(xs)).items| == |xs|
    ensures forall i :: 0 <= i < |xs| ==> Blur(DArray(xs)).items[i] == Blur(xs[i])
  {
  }

  lemma SameItems(xs: seq<Doc>, ys: seq<Doc>)
    requires |xs| == |ys| && forall i :: 0 <= i < |xs| ==> Blur(xs[i]) == Blur(ys[i])
    ensures Blur(DArray(xs)) == Blur(DArray(ys))
  {
    hide Blur;
    BlurredItems(xs);
    BlurredItems(ys);
    assert Blur(DArray(xs)).items == Blur(DArray(ys)).items;
  }

  /** Every field of m is in n, equal but for integer fields. */
  ghost predicate Within(m: map<string, Doc>, n: map<string, Doc>) {
    forall k :: k in m ==> k in n && Blur(m[k]) == Blur(n[k])
  }

  lemma SameFields(m: map<string, Doc>, n: map<string, Doc>)
    requires Within(m, n) && Within(n, m)
    ensures Blur(DObject(m)) == Blur(DObject(n))
  {
    hide Blur;
    BlurredFields(m);
    BlurredFields(n);
    assert Blur(DObject(m)).fields == Blur(DObject(n)).fields;
  }

  /** Equal nodes stand for documents that are equal but for integer fields. */
  lemma {:induction false} MatchesAreAlike(a: Shape, b: Shape)
    requires Has(a) && Has(b) && Distinct(ToJson(a)) && Distinct(ToJson(b)) && CompareShapes(a, b)
    ensures Blur(Abs(ToJson(a))) == Blur(Abs(ToJson(b)))
    decreases Height(ToJson(a)) + Height(ToJson(b)), 1
  {
    hide Within, Blur, Has, Distinct;
    ByTag(a, b);
    if a.node == b.node {
      OnePicture(a, b);
    } else if a.data.tag == ARRAY {
      ArraysAreAlike(a, b);
    } else if a.data.tag == OBJECT {
      CoveredIsAlike(a, b);
      CoveredIsAlike(b, a);
      SameFields(Fields(ToMembers(a.kids)), Fields(ToMembers(b.kids)));
    } else {
      LeavesAreAlike(a, b);
    }
  }

  lemma ByTag(a: Shape, b: Shape)
    requires CompareShapes(a, b)
    ensures a.data.tag == b.data.tag
    ensures a.data.tag == OBJECT ==> Abs(ToJson(a)) == DObject(Fields(ToMembers(a.kids)))
    ensures b.data.tag == OBJECT ==> Abs(ToJson(b)) == DObject(Fields(ToMembers(b.kids)))
    ensures a.data.tag == OBJECT && a.node != b.node ==> CoversShapes(a, b) && CoversShapes(b, a)
  {
    hide CoversShapes;
  }

  lemma LeavesAreAlike(a: Shape, b: Shape)
    requires CompareShapes(a, b) && a.node != b.node && a.data.tag != ARRAY && a.data.tag != OBJECT
    ensures Blur(Abs(ToJson(a))) == Blur(Abs(ToJson(b)))
  {
  }

  lemma {:induction false} ArraysAreAlike(a: Shape, b: Shape)
    requires Has(a) && Has(b) && Distinct(ToJson(a)) && Distinct(ToJson(b)) && CompareShapes(a, b)
    requires a.data.tag == ARRAY && a.node != b.node
    ensures Blur(Abs(ToJson(a))) == Blur(Abs(ToJson(b)))
    decreases Height(ToJson(a)) + Height(ToJson(b)), 0
  {
    hide Blur, Height, Has;
    var xs, ys := Elements(ToItems(a.kids)), Elements(ToItems(b.kids));
    forall i | 0 <= i < |xs| ensures Blur(xs[i]) == Blur(ys[i]) {
      ItemBelow(a, i);
      ItemBelow(b, i);
      Kid(a, i);
      Kid(b, i);
      MatchesAreAlike(a.kids[i], b.kids[i]);
    }
    SameItems(xs, ys);
  }

  lemma DistinctObject(t: Shape)
    requires t.data.tag == OBJECT && Distinct(ToJson(t))
    ensures DistinctMembers(ToMembers(t.kids))
    ensures forall i :: 0 <= i < |t.kids| ==> Distinct(ToJson(t.kids[i]))
  {
    hide Height, Fold;
    assert forall i :: 0 <= i < |t.kids| ==> ToMembers(t.kids)[i].value == ToJson(t.kids[i]);
  }

  lemma {:induction false} CoveredIsAlike(a: Shape, b: Shape)
    requires Has(a) && Has(b) && Distinct(ToJson(a)) && Distinct(ToJson(b))
    requires a.data.tag == b.data.tag == OBJECT && CoversShapes(a, b)
    ensures Within(Fields(ToMembers(a.kids)), Fields(ToMembers(b.kids)))
    decreases Height(ToJson(a)) + Height(ToJson(b)), 0
  {
    hide Blur, Fold, FindKey, CompareShapes, Has, Height, Distinct, Abs;
    var xs, ys := ToMembers(a.kids), ToMembers(b.kids);
    DistinctObject(a);
    DistinctObject(b);
    forall k | k in Fields(xs) ensures k in Fields(ys) && Blur(Fields(xs)[k]) == Blur(Fields(ys)[k]) {
      FieldsKeys(xs, k);
      var i: nat :| i < |xs| && Fold(xs[i].key) == k;
      FieldsAt(xs, i);
      FindKeyIsField(b.kids, xs[i].key);
      var l := FindKey(b.kids, a.kids[i].data.key);
      MemberBelow(a, i);
      MemberBelow(b, l);
      Kid(a, i);
      Kid(b, l);
      MatchesAreAlike(a.kids[i], b.kids[l]);
    }
  }

  lemma {:induction false} ApartMatches(a: Shape, b: Shape)
    requires NodesOf(a) !! NodesOf(b) && CompareShapes(a, b)
    ensures Comparing.Compare(ToJson(a), ToJson(b))
    decreases Height(ToJson(a)) + Height(ToJson(b)), 1
  {
    if a.data.tag == ARRAY {
      forall i | 0 <= i < |a.kids| ensures Comparing.Compare(ToJson(a.kids[i]), ToJson(b.kids[i])) {
        ItemBelow(a, i);
        ItemBelow(b, i);
        ApartMatches(a.kids[i], b.kids[i]);
      }
    } else if a.data.tag == OBJECT {
      ApartCovers(a, b);
      ApartCovers(b, a);
    }
  }

  lemma {:induction false} ApartCovers(a: Shape, b: Shape)
    requires NodesOf(a) !! NodesOf(b) && a.data.tag == b.data.tag == OBJECT && CoversShapes(a, b)
    ensures Covers(ToMembers(a.kids), ToMembers(b.kids))
    decreases Height(ToJson(a)) + Height(ToJson(b)), 0
  {
    hide Fold, CompareShapes, Comparing.Compare;
    var xs, ys := ToMembers(a.kids), ToMembers(b.kids);
    forall i | 0 <= i < |xs|
      ensures var k := Find(ys, xs[i].key); k < |ys| && Comparing.Compare(xs[i].value, ys[k].value)
    {
      var k := FindKey(b.kids, a.kids[i].data.key);
      MemberBelow(a, i);
      MemberBelow(b, k);
      ApartMatches(a.kids[i], b.kids[k]);
    }
  }

  /**
   * What the shortcut for one and the same node changes: a match still means documents that are
   * equal but for integer fields, and the answer is that of the comparison of values on valid
   * documents and on trees that share no node.
   */
  lemma SharedNodes(a: Shape, b: Shape)
    requires Has(a) && Has(b) && Distinct(ToJson(a)) && Distinct(ToJson(b))
    ensures Alike(Abs(ToJson(a)), Abs(ToJson(b))) ==> CompareShapes(a, b)
    ensures CompareShapes(a, b) ==> Blur(Abs(ToJson(a))) == Blur(Abs(ToJson(b)))
    ensures Valid(Abs(ToJson(a))) || NodesOf(a) !! NodesOf(b) ==>
      (CompareShapes(a, b) <==> Alike(Abs(ToJson(a)), Abs(ToJson(b))))
  {
    hide CompareShapes, Blur, Valid, Has, Distinct, Comparing.Compare, ToJson, Abs;
    CompareDecidesAlike(ToJson(a), ToJson(b));
    if Comparing.Compare(ToJson(a), ToJson(b)) { SharingKeepsMatches(a, b); }
    if CompareShapes(a, b) {
      MatchesAreAlike(a, b);
      if NodesOf(a) !! NodesOf(b) { ApartMatches(a, b); }
    }
  }

  /** So an array with an invalid item is equal to itself, but not to a copy of itself. */
  lemma SharedInvalidItem(a: Shape, copy: Shape)
    requires a.data.tag == copy.data.tag == ARRAY && |a.kids| == |copy.kids| == 1 && a.node != copy.node
    requires a.kids[0].data.tag == copy.kids[0].data.tag == INVALID
    ensures CompareShapes(a, a) && !CompareShapes(a, copy)
  {
    hide Height;
    assert !CompareShapes(a.kids[0], copy.kids[0]);
  }
}
