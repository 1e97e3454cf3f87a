// The cJSON struct, and the doubly linked list of children that hangs off its child field.
module Nodes {

  datatype Tag = INVALID | FALSE | TRUE | NULL | NUMBER | STRING | ARRAY | OBJECT

  class Node {
    var next: Node?
    var prev: Node?
    var child: Node?
    var tag: Tag
    var isReference: bool
    var valuestring: string
    var valueint: int
    var valuedouble: real
    var key: string

    /** cJSON_New_Item. */
    constructor ()
      ensures next == prev == child == null && tag == INVALID && !isReference
      ensures valuestring == key == "" && valueint == 0 && valuedouble == 0.0
    {
      next, prev, child, tag, isReference := null, null, null, INVALID, false;
      valuestring, valueint, valuedouble, key := "", 0, 0.0, "";
    }
  }

  predicate NoRepeats<T(==)>(s: seq<T>) {
    forall i, j :: 0 <= i < j < |s| ==> s[i] != s[j]
  }

  function Head(s: seq<Node>): Node? {
    if s == [] then null else s[0]
  }

  /** Neighbours point at each other; what is in front of the first and behind the last is left open. */
  ghost predicate Joined(s: seq<Node>)
    reads s
  {
    && (forall i {:trigger s[i].next} :: 0 <= i < |s| - 1 ==> s[i].next == s[i + 1])
    && (forall i {:trigger s[i].prev} :: 0 < i < |s| ==> s[i].prev == s[i - 1])
  }

  /** A null-terminated chain of different nodes; the first node's prev is left open. */
  ghost predicate Chain(s: seq<Node>)
    reads s
  {
    NoRepeats(s) && Joined(s) && (s != [] ==> s[|s| - 1].next == null)
  }

  /** The children of parent are exactly the nodes of s, in this order. */
  ghost predicate Children(parent: Node, s: seq<Node>)
    reads parent`child, s
  {
    parent !in s && parent.child == Head(s) && Chain(s) && (s != [] ==> s[0].prev == null)
  }

  /** An item that is in no list. */
  predicate Loose(item: Node)
    reads item
  {
    item.next == null && item.prev == null
  }

  // ----- walking

  /** get_array_item, of both files. */
  method GetArrayItem(parent: Node, index: nat, ghost s: seq<Node>) returns (item: Node?)
    requires Children(parent, s)
    ensures item == if index < |s| then s[index] else null
  {
    item := parent.child;
    var left := index;
    ghost var k := 0;
    while item != null && left > 0
      invariant 0 <= k <= |s| && k + left == index && 0 <= left
      invariant item == if k < |s| then s[k] else null
      decreases left
    {
      left := left - 1;
      item := item.next;
      k := k + 1;
    }
  }

  // ----- the list edits of cJSON.c

  /** add_item_to_array. */
  method AddItem(parent: Node, item: Node, ghost s: seq<Node>)
    requires Children(parent, s) && Loose(item) && item != parent && item !in s
    modifies parent`child, item`prev, s`next
    ensures Children(parent, s + [item])
  {
    var last := parent.child;
    if last == null {
      parent.child := item;
    } else {
      ghost var k := 0;
      while last.next != null
        invariant 0 <= k < |s| && last == s[k]
        decreases |s| - k
      {
        last := last.next;
        k := k + 1;
      }
      last.next := item;
      item.prev := last;
      assert (s + [item])[|s|] == item && forall i :: 0 <= i < |s| ==> (s + [item])[i] == s[i];
    }
  }

  lemma Taken<T>(s: seq<T>, k: nat)
    requires NoRepeats(s) && k < |s|
    ensures var r := s[..k] + s[k + 1..];
      && NoRepeats(r) && s[k] !in r
      && (forall i :: 0 <= i < |r| ==> r[i] == s[if i < k then i else i + 1])
      && (forall i :: 0 <= i < |s| && i != k ==> s[i] != s[k])
      && (forall i :: 0 <= i < |s| && i != k - 1 && k > 0 ==> s[i] != s[k - 1])
      && (forall i :: 0 <= i < |s| && i != k + 1 && k + 1 < |s| ==> s[i] != s[k + 1])
  {
  }

  /** cJSON_DetachItemViaPointer, for an item that is a child of this parent. */
  method DetachItem(parent: Node, item: Node, ghost s: seq<Node>, ghost k: nat)
    requires Children(parent, s) && k < |s| && s[k] == item
    modifies parent`child, s`next, s`prev
    ensures Children(parent, s[..k] + s[k + 1..]) && Loose(item)
  {
    hide NoRepeats;
    Taken(s, k);
    if item.prev != null {
      item.prev.next := item.next;
    }
    if item.next != null {
      item.next.prev := item.prev;
    }
    if item == parent.child {
      parent.child := item.next;
    }
    item.prev := null;
    item.next := null;
    ghost var r := s[..k] + s[k + 1..];
    assert Joined(r) by {
      forall i {:trigger r[i].next} | 0 <= i < |r| - 1 ensures r[i].next == r[i + 1] {}
      forall i {:trigger r[i].prev} | 0 < i < |r| ensures r[i].prev == r[i - 1] {}
    }
  }

  lemma Inserted<T>(s: seq<T>, k: nat, x: T)
    requires NoRepeats(s) && k < |s| && x !in s
    ensures var r := s[..k] + [x] + s[k..];
      && NoRepeats(r) && (forall i :: 0 <= i < |r| ==> r[i] == if i < k then s[i] else if i == k then x else s[i - 1])
      && (forall i :: 0 <= i < |s| && i != k ==> s[i] != s[k])
      && (forall i :: 0 <= i < |s| && i != k - 1 && k > 0 ==> s[i] != s[k - 1])
  {
  }

  /** Linking a new item in front of the child at index k. */
  method LinkBefore(parent: Node, after: Node, newitem: Node, ghost s: seq<Node>, ghost k: nat)
    requires Children(parent, s) && k < |s| && s[k] == after
    requires Loose(newitem) && newitem != parent && newitem !in s
    modifies parent`child, newitem`next, newitem`prev, s`next, s`prev
    ensures Children(parent, s[..k] + [newitem] + s[k..])
  {
    hide NoRepeats;
    Inserted(s, k, newitem);
    newitem.next := after;
    newitem.prev := after.prev;
    after.prev := newitem;
    if after == parent.child {
      parent.child := newitem;
    } else {
      newitem.prev.next := newitem;
    }
    ghost var r := s[..k] + [newitem] + s[k..];
    assert Joined(r) by {
      forall i {:trigger r[i].next} | 0 <= i < |r| - 1 ensures r[i].next == r[i + 1] {}
      forall i {:trigger r[i].prev} | 0 < i < |r| ensures r[i].prev == r[i - 1] {}
    }
  }

  /** cJSON_ReplaceItemViaPointer, up to the deletion of the replaced item. */
  method ReplaceItem(parent: Node, item: Node, replacement: Node, ghost s: seq<Node>, ghost k: nat)
    requires Children(parent, s) && k < |s| && s[k] == item
    requires replacement == item || (Loose(replacement) && replacement != parent && replacement !in s)
    modifies parent`child, replacement`next, replacement`prev, s`next, s`prev
    ensures Children(parent, s[k := replacement]) && (replacement != item ==> Loose(item))
  {
    if replacement == item {
      return;
    }
    replacement.next := item.next;
    replacement.prev := item.prev;
    if replacement.next != null {
      replacement.next.prev := replacement;
    }
    if replacement.prev != null {
      replacement.prev.next := replacement;
    }
    if parent.child == item {
      parent.child := replacement;
    }
    item.next := null;
    item.prev := null;
    ghost var r := s[k := replacement];
    assert Joined(r) by {
      forall i {:trigger r[i].next} | 0 <= i < |r| - 1 ensures r[i].next == r[i + 1] {}
      forall i {:trigger r[i].prev} | 0 < i < |r| ensures r[i].prev == r[i - 1] {}
    }
  }

  /** cJSON_InsertItemInArray: an index past the end appends, a negative one does nothing. */
  method InsertItemInArray(parent: Node, which: int, newitem: Node, ghost s: seq<Node>)
    requires Children(parent, s) && Loose(newitem) && newitem != parent && newitem !in s
    modifies parent`child, newitem`next, newitem`prev, s`next, s`prev
    ensures Children(parent, Edited(s, Insert(which, newitem))) && (which < 0 ==> Loose(newitem))
  {
    if which < 0 {
      return;
    }
    var after := GetArrayItem(parent, which, s);
    if after == null {
      AddItem(parent, newitem, s);
    } else {
      LinkBefore(parent, after, newitem, s, which);
    }
  }

  /** cJSON_DetachItemFromArray. */
  method DetachItemFromArray(parent: Node, which: int, ghost s: seq<Node>) returns (item: Node?)
    requires Children(parent, s)
    modifies parent`child, s`next, s`prev
    ensures item == if 0 <= which < |s| then s[which] else null
    ensures Children(parent, Edited(s, Detach(which))) && (item != null ==> Loose(item))
  {
    if which < 0 {
      return null;
    }
    item := GetArrayItem(parent, which, s);
    if item != null {
      DetachItem(parent, item, s, which);
    }
  }

  /** cJSON_ReplaceItemInArray; the deletion of the replaced item is not part of this step. */
  method ReplaceItemInArray(parent: Node, which: int, newitem: Node, ghost s: seq<Node>)
    requires Children(parent, s)
    requires (0 <= which < |s| && newitem == s[which]) || (Loose(newitem) && newitem != parent && newitem !in s)
    modifies parent`child, newitem`next, newitem`prev, s`next, s`prev
    ensures Children(parent, Edited(s, Replace(which, newitem)))
    ensures 0 <= which < |s| && s[which] != newitem ==> Loose(s[which])
    ensures !(0 <= which < |s|) ==> Loose(newitem)
  {
    if which < 0 {
      return;
    }
    var item := GetArrayItem(parent, which, s);
    if item != null {
      ReplaceItem(parent, item, newitem, s, which);
    }
  }

  // ----- runs of edits

  datatype Edit = Add(item: Node) | Insert(which: int, item: Node) | Detach(which: int) | Replace(which: int, item: Node)

  /** The edit on a plain sequence. */
  function Edited(s: seq<Node>, e: Edit): seq<Node> {
    match e
    case Add(item) => s + [item]
    case Insert(which, item) =>
      if which < 0 then s else if which < |s| then s[..which] + [item] + s[which..] else s + [item]
    case Detach(which) => if 0 <= which < |s| then s[..which] + s[which + 1..] else s
    case Replace(which, item) => if 0 <= which < |s| then s[which := item] else s
  }

  /** An inserted item stands at the index, and detaching there takes it out again. */
  lemma InsertLaws(s: seq<Node>, which: nat, item: Node)
    requires which <= |s|
    ensures |Edited(s, Insert(which, item))| == |s| + 1 && Edited(s, Insert(which, item))[which] == item
    ensures Edited(Edited(s, Insert(which, item)), Detach(which)) == s
    ensures Edited(s, Add(item)) == Edited(s, Insert(|s|, item))
  {
  }

  /** A detached item can be put back, and replacing is detaching and inserting. */
  lemma DetachLaws(s: seq<Node>, which: nat, item: Node)
    requires which < |s|
    ensures Edited(Edited(s, Detach(which)), Insert(which, s[which])) == s
    ensures Edited(s, Replace(which, item)) == Edited(Edited(s, Detach(which)), Insert(which, item))
  {
    var t := s[..which] + s[which + 1..];
    if which < |t| {
      assert t[..which] == s[..which] && t[which..] == s[which + 1..];
    } else {
      assert t == s[..which];
    }
  }

  /** A wrong index changes nothing, but that an insertion past the end appends. */
  lemma WrongIndex(s: seq<Node>, which: int, item: Node)
    ensures !(0 <= which < |s|) ==> Edited(s, Detach(which)) == s && Edited(s, Replace(which, item)) == s
    ensures which < 0 ==> Edited(s, Insert(which, item)) == s
    ensures which >= |s| ==> Edited(s, Insert(which, item)) == Edited(s, Add(item))
  {
  }

  function EditedAll(s: seq<Node>, edits: seq<Edit>): seq<Node>
    decreases |edits|
  {
    if edits == [] then s else EditedAll(Edited(s, edits[0]), edits[1..])
  }

  /** The caller gives in an item that is not in the list, or is the one to be replaced. */
  predicate Fits(parent: Node, pool: set<Node>, s: seq<Node>, e: Edit) {
    || e.Detach?
    || (e.Replace? && 0 <= e.which < |s| && s[e.which] == e.item)
    || (e.item in pool && e.item !in s && e.item != parent)
  }

  predicate FitsAll(parent: Node, pool: set<Node>, s: seq<Node>, edits: seq<Edit>)
    decreases |edits|
  {
    edits == [] || (Fits(parent, pool, s, edits[0]) && FitsAll(parent, pool, Edited(s, edits[0]), edits[1..]))
  }

  /** s is the list of parent, and the rest of the pool is in no list. */
  ghost predicate Pooled(parent: Node, pool: set<Node>, s: seq<Node>)
    reads parent, pool, s
  {
    && parent !in pool && Children(parent, s)
    && (forall i :: 0 <= i < |s| ==> s[i] in pool)
    && forall n :: n in pool && n !in s ==> Loose(n)
  }

  /** An edit takes at most one item out of the list. */
  lemma StaysIn(s: seq<Node>, e: Edit, k: nat)
    requires k < |s| && !((e.Detach? || e.Replace?) && e.which == k)
    ensures s[k] in Edited(s, e)
  {
    var r := Edited(s, e);
    match e
    case Add(_) => assert r[k] == s[k];
    case Insert(which, _) => assert r[if 0 <= which <= k then k + 1 else k] == s[k];
    case Detach(which) => assert r[if 0 <= which < k then k - 1 else k] == s[k];
    case Replace(which, _) => assert r[k] == s[k];
  }

  lemma ArrivesIn(s: seq<Node>, e: Edit)
    requires !e.Detach? && (e.Insert? ==> e.which >= 0) && (e.Replace? ==> 0 <= e.which < |s|)
    ensures e.item in Edited(s, e)
  {
    assert Edited(s, e)[if e.Add? || e.which >= |s| then |s| else e.which] == e.item;
  }

  method Perform(parent: Node, e: Edit, ghost pool: set<Node>, ghost s: seq<Node>)
    requires Pooled(parent, pool, s) && Fits(parent, pool, s, e)
    modifies parent`child, pool`next, pool`prev
    ensures Pooled(parent, pool, Edited(s, e))
  {
    hide Children;
    ghost var r := Edited(s, e);
    assert forall i :: 0 <= i < |r| ==> r[i] in s || (!e.Detach? && r[i] == e.item);
    match e {
      case Add(item) => AddItem(parent, item, s);
      case Insert(which, item) => InsertItemInArray(parent, which, item, s);
      case Detach(which) =>
        var item := DetachItemFromArray(parent, which, s);
      case Replace(which, item) => ReplaceItemInArray(parent, which, item, s);
    }
    forall n | n in pool && n !in r ensures Loose(n) {
      if !e.Detach? && n == e.item && (e.Insert? ==> e.which >= 0) && (e.Replace? ==> 0 <= e.which < |s|) { ArrivesIn(s, e); }
      if n in s {
        var k :| 0 <= k < |s| && s[k] == n;
        if !((e.Detach? || e.Replace?) && e.which == k) { StaysIn(s, e, k); }
      }
    }
  }

  /**
   * Any run of edits leaves a doubly linked list of the items that the same edits leave in a plain
   * sequence; every other item is unlinked.
   */
  method PerformAll(parent: Node, edits: seq<Edit>, ghost pool: set<Node>, ghost s: seq<Node>)
    requires Pooled(parent, pool, s) && FitsAll(parent, pool, s, edits)
    modifies parent`child, pool`next, pool`prev
    ensures Pooled(parent, pool, EditedAll(s, edits))
  {
    var i := 0;
    ghost var r := s;
    assert edits[0..] == edits;
    while i < |edits|
      invariant 0 <= i <= |edits| && Pooled(parent, pool, r)
      invariant FitsAll(parent, pool, r, edits[i..]) && EditedAll(r, edits[i..]) == EditedAll(s, edits)
    {
      assert edits[i..][0] == edits[i] && edits[i..][1..] == edits[i + 1..];
      Perform(parent, edits[i], pool, r);
      r := Edited(r, edits[i]);
      i := i + 1;
    }
  }
}
