// cJSON_Duplicate and cJSON_Delete, with the set of nodes that are allocated.
module Copying {
  import opened Nodes
  import opened Trees

  /** The allocator: the nodes handed out and not yet given back. */
  class Memory {
    ghost var live: set<Node>

    constructor ()
      ensures live == {}
    {
      live := {};
    }

    method New() returns (n: Node)
      modifies this
      ensures fresh(n) && live == old(live) + {n}
      ensures n.next == n.prev == n.child == null && n.tag == INVALID && !n.isReference
      ensures n.valuestring == n.key == "" && n.valueint == 0 && n.valuedouble == 0.0
    {
      n := new Node();
      live := live + {n};
    }

    /** What was given back must not be given back again. */
    method Free(n: Node)
      requires n in live
      modifies this
      ensures live == old(live) - {n}
    {
      live := live - {n};
    }
  }

  // ----- deletion

  /** The nodes that deleting the tree gives back: a reference does not own its children. */
  function Owned(t: Shape): set<Node>
    decreases t, 0
  {
    {t.node} + if t.data.isReference then {} else OwnedAll(t.kids)
  }

  function OwnedAll(kids: seq<Shape>): set<Node>
    decreases kids, 1
  {
    if kids == [] then {} else Owned(kids[0]) + OwnedAll(kids[1..])
  }

  /** No node is owned twice. */
  predicate OwnedOnce(t: Shape)
    decreases t, 0
  {
    t.data.isReference || (t.node !in OwnedAll(t.kids) && OwnedOnceAll(t.kids))
  }

  predicate OwnedOnceAll(kids: seq<Shape>)
    decreases kids, 1
  {
    kids == [] || (OwnedOnce(kids[0]) && Owned(kids[0]) !! OwnedAll(kids[1..]) && OwnedOnceAll(kids[1..]))
  }

  lemma NothingOwned()
    ensures OwnedAll([]) == {}
  {
  }

  lemma OwnedSplit(trees: seq<Shape>)
    requires trees != [] && OwnedOnceAll(trees)
    ensures var t := trees[0];
      && OwnedAll(trees) == Owned(t) + OwnedAll(trees[1..]) && Owned(t) !! OwnedAll(trees[1..]) && OwnedOnceAll(trees[1..])
      && (t.data.isReference || t.kids == [] ==> Owned(t) == {t.node})
      && (!t.data.isReference ==>
            Owned(t) == {t.node} + OwnedAll(t.kids) && t.node !in OwnedAll(t.kids) && OwnedOnceAll(t.kids))
  {
  }

  lemma GivenBack(live: set<Node>, a: set<Node>, b: set<Node>)
    requires a !! b && a + b <= live
    ensures b <= live - a && (live - a) - b == live - (a + b)
  {
  }

  /**
   * cJSON_Delete on a list of trees: every owned node is read only while it is live and given back
   * once, and nothing else is.
   */
  method Delete(list: Node?, ghost trees: seq<Shape>, mem: Memory)
    requires Reaches(list, trees) && HasAll(trees)
    requires OwnedOnceAll(trees) && OwnedAll(trees) <= mem.live
    modifies mem
    ensures mem.live == old(mem.live) - OwnedAll(trees)
    decreases trees
  {
    hide Owned, OwnedAll, OwnedOnce, OwnedOnceAll;
    NodesExistAll(trees);
    NothingOwned();
    assert trees[0..] == trees;
    var item := list;
    ghost var k: nat, rest := 0, trees;
    while item != null
      invariant k <= |trees| && rest == trees[k..] && item == (if rest == [] then null else rest[0].node)
      invariant Reaches(list, trees) && HasAll(trees)
      invariant OwnedOnceAll(rest) && OwnedAll(rest) <= mem.live
      invariant mem.live - OwnedAll(rest) == old(mem.live) - OwnedAll(trees)
      decreases |rest|
    {
      ghost var t := rest[0];
      assert t == trees[k] && Has(t) && rest[1..] == trees[k + 1..];
      OwnedSplit(rest);
      assert item in mem.live;
      ghost var live := mem.live;
      GivenBack(live, Owned(t), OwnedAll(rest[1..]));
      var next := item.next;
      DeleteItem(item, t, mem);
      item := next;
      k, rest := k + 1, rest[1..];
    }
  }

  /** One round of the loop: the children of an item that owns them go first. */
  method DeleteItem(item: Node, ghost t: Shape, mem: Memory)
    requires item == t.node && Has(t) && Owned(t) <= mem.live
    requires t.data.isReference || t.kids == [] ==> Owned(t) == {item}
    requires !t.data.isReference ==> Owned(t) == {item} + OwnedAll(t.kids) && item !in OwnedAll(t.kids) && OwnedOnceAll(t.kids)
    modifies mem
    ensures mem.live == old(mem.live) - Owned(t)
    decreases t
  {
    hide Owned, OwnedAll, OwnedOnce, OwnedOnceAll;
    if !item.isReference && item.child != null {
      Delete(item.child, t.kids, mem);
    }
    mem.Free(item);
  }

  lemma AloneInList(t: Shape)
    requires Has(t) && t.node.next == null && OwnedOnce(t)
    ensures Reaches(t.node, [t]) && HasAll([t]) && OwnedOnceAll([t]) && OwnedAll([t]) == Owned(t)
  {
    assert [t][1..] == [];
  }

  lemma ParentApart(parent: Node, s: seq<Node>, k: nat)
    requires Children(parent, s) && k < |s|
    ensures s[k] != parent
  {
    assert s[k] in s;
  }

  /**
   * cJSON_ReplaceItemViaPointer: the replacement takes the item's place in the list, and the tree of
   * the item, which has nothing in common with the list but the item, is given back.
   */
  method ReplaceAndDelete(parent: Node, item: Node, replacement: Node, mem: Memory, ghost s: seq<Node>, ghost k: nat, ghost t: Shape)
    requires Children(parent, s) && k < |s| && s[k] == item
    requires replacement == item || (Loose(replacement) && replacement != parent && replacement !in s)
    requires item == t.node && Has(t) && OwnedOnce(t) && Owned(t) <= mem.live
    requires parent !in NodesOfAll(t.kids) && replacement !in NodesOfAll(t.kids)
    requires forall n :: n in s ==> n !in NodesOfAll(t.kids)
    modifies parent`child, replacement`next, replacement`prev, s`next, s`prev, mem
    ensures Children(parent, s[k := replacement])
    ensures mem.live == if replacement == item then old(mem.live) else old(mem.live) - Owned(t)
  {
    hide Children, Owned, OwnedOnce, OwnedAll, OwnedOnceAll, Has, HasAll, NodesOf, NodesOfAll;
    NodesExist(t);
    ParentApart(parent, s, k);
    ReplaceItem(parent, item, replacement, s, k);
    assert replacement != item ==> item.next == null;
    assert Has(t);
    if replacement != item {
      AloneInList(t);
      Delete(item, [t], mem);
    }
  }

  // ----- copies

  /** The picture of a copy: equal data, but no references. */
  predicate Copies(c: Shape, t: Shape)
    decreases t
  {
    && c.data == t.data.(isReference := false) && |c.kids| == |t.kids|
    && forall i :: 0 <= i < |t.kids| ==> Copies(c.kids[i], t.kids[i])
  }

  lemma {:induction false} CopyHasValue(c: Shape, t: Shape)
    requires Copies(c, t)
    ensures ToJson(c) == ToJson(t)
    decreases t
  {
    forall i | 0 <= i < |t.kids| ensures ToJson(c.kids[i]) == ToJson(t.kids[i]) {
      CopyHasValue(c.kids[i], t.kids[i]);
    }
    assert ToItems(c.kids) == ToItems(t.kids);
    forall i | 0 <= i < |t.kids| ensures ToMembers(c.kids)[i] == ToMembers(t.kids)[i] {
      assert Copies(c.kids[i], t.kids[i]);
    }
    assert ToMembers(c.kids) == ToMembers(t.kids);
  }

  /** No node occurs twice. */
  predicate Unshared(t: Shape)
    decreases t, 0
  {
    t.node !in NodesOfAll(t.kids) && UnsharedAll(t.kids)
  }

  predicate UnsharedAll(kids: seq<Shape>)
    decreases kids, 1
  {
    && (forall i :: 0 <= i < |kids| ==> Unshared(kids[i]))
    && forall i, j :: 0 <= i < j < |kids| ==> NodesOf(kids[i]) !! NodesOf(kids[j])
  }

  /** A tree of its own: as pictured, every list doubly linked, no node twice, no references. */
  ghost predicate Built(t: Shape)
    reads t.node`child, t.node`tag, t.node`key, t.node`valuestring, t.node`valueint, t.node`valuedouble, t.node`isReference
    reads NodesOfAll(t.kids)
    decreases t
  {
    && Has(t) && Unshared(t) && !t.data.isReference
    && DoublyLinked(t.node, t.kids)
    && forall i :: 0 <= i < |t.kids| ==> Built(t.kids[i])
  }

  ghost predicate DoublyLinked(parent: Node, kids: seq<Shape>)
    reads parent`child, NodesOfAll(kids)
  {
    RootsWithin(kids);
    Children(parent, Roots(kids))
  }

  lemma RootsWithin(kids: seq<Shape>)
    ensures forall n :: n in Roots(kids) ==> n in NodesOfAll(kids)
  {
    forall n | n in Roots(kids) ensures n in NodesOfAll(kids) {
      var i :| 0 <= i < |kids| && Roots(kids)[i] == n;
      assert NodesOf(kids[i]) <= NodesOfAll(kids);
    }
  }

  /** The children copied so far, under their new parent. */
  ghost predicate Growing(parent: Node, made: seq<Shape>)
    reads parent`child, NodesOfAll(made)
  {
    && DoublyLinked(parent, made) && UnsharedAll(made) && parent !in NodesOfAll(made)
    && forall i :: 0 <= i < |made| ==> Built(made[i])
  }

  function LastNode(made: seq<Shape>): Node? { if made == [] then null else made[|made| - 1].node }

  function Only(n: Node?): set<Node> { if n == null then {} else {n} }

  lemma GrowingParts(parent: Node, made: seq<Shape>, c: Shape)
    requires Growing(parent, made) && Built(c)
    ensures Children(parent, Roots(made)) && UnsharedAll(made) && Unshared(c) && c.node !in NodesOfAll(c.kids)
    ensures parent !in NodesOfAll(made) && forall i :: 0 <= i < |made| ==> Built(made[i])
  {
  }

  /** Linking one more copy behind the last. */
  method LinkCopy(parent: Node, last: Node?, copy: Node, ghost tail: set<Node>, ghost made: seq<Shape>, ghost c: Shape)
    requires Growing(parent, made) && Built(c) && copy == c.node && Loose(copy)
    requires last == LastNode(made) && tail == Only(last)
    requires NodesOf(c) !! NodesOfAll(made) && parent !in NodesOf(c)
    modifies parent`child, copy`prev, tail`next
    ensures Growing(parent, made + [c]) && NodesOfAll(made + [c]) == NodesOfAll(made) + NodesOf(c)
  {
    hide Unshared, UnsharedAll, Built, Children;
    GrowingParts(parent, made, c);
    NodesAppend(made, c);
    UnsharedAppend(made, c);
    RootsAppend(made, c);
    RootsWithin(made);
    ghost var all := made + [c];
    forall i | 0 <= i < |all| ensures Apart(parent, last, copy, all[i]) { MadeApart(parent, made, c, i); }
    LinkAmong(parent, last, copy, tail, Roots(made), all);
  }

  /** None of the nodes that are relinked is inside the tree. */
  predicate Apart(parent: Node, last: Node?, copy: Node, t: Shape) {
    var inside := NodesOfAll(t.kids);
    parent !in NodesOf(t) && copy !in inside && (last == null || last !in inside)
  }

  lemma MadeApart(parent: Node, made: seq<Shape>, c: Shape, i: nat)
    requires UnsharedAll(made) && Unshared(c) && NodesOf(c) !! NodesOfAll(made) && i <= |made|
    requires parent !in NodesOfAll(made) && parent !in NodesOf(c)
    ensures Apart(parent, if made == [] then null else made[|made| - 1].node, c.node, (made + [c])[i])
  {
    if made != [] {
      var last := made[|made| - 1];
      assert NodesOf(last) <= NodesOfAll(made) && Unshared(last);
      if i < |made| {
        assert NodesOf(made[i]) <= NodesOfAll(made);
        if i < |made| - 1 { assert NodesOf(made[i]) !! NodesOf(last); }
      }
    }
  }

  /** Linking changes nothing inside the trees. */
  method LinkAmong(parent: Node, last: Node?, copy: Node, ghost tail: set<Node>, ghost s: seq<Node>, ghost all: seq<Shape>)
    requires Children(parent, s) && Loose(copy) && copy !in s && copy != parent
    requires last == (if s == [] then null else s[|s| - 1]) && tail == Only(last)
    requires forall i :: 0 <= i < |all| ==> Built(all[i]) && Apart(parent, last, copy, all[i])
    modifies parent`child, copy`prev, tail`next
    ensures Children(parent, s + [copy])
    ensures forall i :: 0 <= i < |all| ==> Built(all[i])
  {
    hide Built, Children, NodesOf, NodesOfAll;
    NodesExistAll(all);
    forall i | 0 <= i < |all| ensures NodesOf(all[i]) <= NodesOfAll(all) {}
    Link(parent, last, copy, tail, s);
  }

  lemma {:induction false} NodesAppend(made: seq<Shape>, c: Shape)
    ensures NodesOfAll(made + [c]) == NodesOfAll(made) + NodesOf(c)
  {
    if made == [] {
      assert [] + [c] == [c] && [c][1..] == [];
    } else {
      assert (made + [c])[1..] == made[1..] + [c];
      NodesAppend(made[1..], c);
    }
  }

  lemma UnsharedAppend(made: seq<Shape>, c: Shape)
    requires UnsharedAll(made) && Unshared(c) && NodesOf(c) !! NodesOfAll(made)
    ensures UnsharedAll(made + [c])
  {
    var r := made + [c];
    forall i, j | 0 <= i < j < |r| ensures NodesOf(r[i]) !! NodesOf(r[j]) {
      assert NodesOf(made[i]) <= NodesOfAll(made);
    }
  }

  lemma RootsAppend(made: seq<Shape>, c: Shape)
    ensures Roots(made + [c]) == Roots(made) + [c.node]
  {
  }

  /** The two ways in which cJSON_Duplicate links a copied child. */
  method Link(parent: Node, last: Node?, copy: Node, ghost tail: set<Node>, ghost s: seq<Node>)
    requires Children(parent, s) && Loose(copy) && copy !in s && copy != parent
    requires last == (if s == [] then null else s[|s| - 1]) && tail == Only(last)
    modifies parent`child, copy`prev, tail`next
    ensures Children(parent, s + [copy])
  {
    if last != null {
      last.next := copy;
      copy.prev := last;
    } else {
      parent.child := copy;
    }
    ghost var r := s + [copy];
    assert forall i :: 0 <= i < |r| ==> r[i] == if i < |s| then s[i] else copy;
  }

  /**
   * cJSON_Duplicate with recursion: a tree of new nodes only, linked both ways and without
   * references, with the value of the original. The original may share nodes through references.
   */
  method Duplicate(item: Node, mem: Memory, ghost t: Shape) returns (newitem: Node, ghost c: Shape)
    requires item == t.node && Has(t)
    modifies mem
    ensures newitem == c.node && Loose(newitem) && fresh(NodesOf(c))
    ensures Built(c) && Copies(c, t) && ToJson(c) == ToJson(t)
    ensures mem.live == old(mem.live) + NodesOf(c)
    decreases t, 1
  {
    hide Copied, Built, Copies, ToJson;
    NodesExist(t);
    newitem := CopyItem(item, mem);
    assert newitem !in NodesOf(t);
    ghost var made := DuplicateChildren(item.child, newitem, mem, t.kids);
    c := Shape(newitem, t.data.(isReference := false), made);
    CopyComplete(c, t);
  }

  /** cJSON_Duplicate without recursion. */
  method CopyItem(item: Node, mem: Memory) returns (newitem: Node)
    modifies mem
    ensures fresh(newitem) && mem.live == old(mem.live) + {newitem}
    ensures newitem.child == null && Loose(newitem) && DataOf(newitem) == DataOf(item).(isReference := false)
  {
    newitem := mem.New();
    newitem.tag, newitem.valuestring, newitem.key := item.tag, item.valuestring, item.key;
    newitem.valueint, newitem.valuedouble := item.valueint, item.valuedouble;
  }

  lemma CopyComplete(c: Shape, t: Shape)
    requires Copied(c.node, c.kids, t.kids, []) && DataOf(c.node) == c.data == t.data.(isReference := false)
    requires '\0' !in t.data.key && (t.kids != [] ==> t.data.tag == ARRAY || t.data.tag == OBJECT)
    ensures Built(c) && Copies(c, t) && ToJson(c) == ToJson(t)
  {
    var s := Roots(c.kids);
    assert Children(c.node, s);
    forall i | 0 <= i < |c.kids| ensures Has(c.kids[i]) && Unshared(c.kids[i]) { assert Built(c.kids[i]); }
    assert forall i :: 0 <= i < |c.kids| ==> s[i] == c.kids[i].node;
    ReachesByLinks(c.node.child, c.kids);
    CopyHasValue(c, t);
  }

  lemma ReachesByLinks(first: Node?, kids: seq<Shape>)
    requires first == Head(Roots(kids)) && Chain(Roots(kids))
    ensures Reaches(first, kids)
  {
    var s := Roots(kids);
    forall i | 0 <= i < |kids| ensures kids[i].node.next == if i + 1 < |kids| then kids[i + 1].node else null {
      assert s[i].next == if i + 1 < |s| then s[i + 1] else null;
    }
  }

  predicate CopiesFirst(made: seq<Shape>, kids: seq<Shape>) {
    |made| <= |kids| && forall i :: 0 <= i < |made| ==> Copies(made[i], kids[i])
  }

  lemma CopiesOneMore(made: seq<Shape>, kids: seq<Shape>, c: Shape)
    requires CopiesFirst(made, kids) && |made| < |kids| && Copies(c, kids[|made|])
    ensures CopiesFirst(made + [c], kids)
  {
  }

  /** The loop of cJSON_Duplicate with the first children copied. */
  ghost predicate Copied(newitem: Node, made: seq<Shape>, kids: seq<Shape>, rest: seq<Shape>)
    reads newitem`child, NodesOfAll(made)
  {
    Growing(newitem, made) && CopiesFirst(made, kids) && rest == kids[|made|..]
  }

  lemma NoneCopied(parent: Node, kids: seq<Shape>)
    requires parent.child == null
    ensures Copied(parent, [], kids, kids) && NodesOfAll([]) == {}
  {
    assert kids[0..] == kids;
  }

  method DuplicateChildren(first: Node?, newitem: Node, mem: Memory, ghost kids: seq<Shape>) returns (ghost made: seq<Shape>)
    requires Listed(first, kids) && newitem !in NodesOfAll(kids) && newitem.child == null
    modifies mem, newitem`child
    ensures Copied(newitem, made, kids, []) && fresh(NodesOfAll(made))
    ensures mem.live == old(mem.live) + NodesOfAll(made)
    decreases kids, 3
  {
    hide Stage;
    NodesExistAll(kids);
    StageStarts(first, newitem, kids);
    var child, last: Node? := first, null;
    made := [];
    ghost var nodes, copies: set<Node> := NodesOfAll(kids), {};
    while child != null
      invariant Stage(newitem, child, last, nodes, copies, kids, made)
      invariant fresh(copies) && mem.live == old(mem.live) + copies
      decreases |kids| - |made|
    {
      ghost var c;
      child, last, c := DuplicateChild(child, newitem, last, mem, nodes, copies, kids, made);
      UnionAssoc(old(mem.live), copies, NodesOf(c));
      copies, made := copies + NodesOf(c), made + [c];
    }
    StageEnds(newitem, last, nodes, copies, kids, made);
  }

  /** Where the loop of cJSON_Duplicate stands: the rest of the list, and the copies linked so far. */
  ghost predicate Stage(newitem: Node, child: Node?, last: Node?, nodes: set<Node>, copies: set<Node>,
                        kids: seq<Shape>, made: seq<Shape>)
    reads newitem`child, NodesOfAll(made), NodesOfAll(if |made| <= |kids| then kids[|made|..] else [])
  {
    && |made| <= |kids| && Listed(child, kids[|made|..]) && NodesOfAll(kids[|made|..]) <= nodes && newitem !in nodes
    && Copied(newitem, made, kids, kids[|made|..])
    && last == LastNode(made) && (last != null ==> last in copies) && copies !! nodes && NodesOfAll(made) == copies
  }

  lemma StageStarts(first: Node?, newitem: Node, kids: seq<Shape>)
    requires Listed(first, kids) && newitem !in NodesOfAll(kids) && newitem.child == null
    ensures Stage(newitem, first, null, NodesOfAll(kids), {}, kids, [])
  {
    assert kids[0..] == kids;
    NoneCopied(newitem, kids);
  }

  lemma StageEnds(newitem: Node, last: Node?, nodes: set<Node>, copies: set<Node>, kids: seq<Shape>, made: seq<Shape>)
    requires Stage(newitem, null, last, nodes, copies, kids, made)
    ensures Copied(newitem, made, kids, []) && NodesOfAll(made) == copies
  {
    ListedEnd(kids[|made|..]);
  }

  ghost predicate Listed(first: Node?, kids: seq<Shape>)
    reads NodesOfAll(kids)
  {
    Reaches(first, kids) && HasAll(kids)
  }

  lemma SuffixRank(kids: seq<Shape>, k: nat)
    requires k <= |kids|
    ensures k == 0 ==> kids[k..] == kids
    ensures k < |kids| ==> kids[k..][1..] == kids[k + 1..]
  {
  }

  lemma ListedEnd(kids: seq<Shape>)
    requires Listed(null, kids)
    ensures kids == []
  {
  }

  lemma ListedRest(first: Node?, kids: seq<Shape>)
    requires Listed(first, kids) && first != null
    ensures kids != [] && first == kids[0].node && Has(kids[0]) && Listed(first.next, kids[1..])
  {
    assert forall i :: 0 <= i < |kids| - 1 ==> kids[1..][i] == kids[i + 1];
    assert kids[0].node.next == KidNode(kids, 1);
    forall i | 0 <= i < |kids| - 1 ensures kids[1..][i].node.next == KidNode(kids[1..], i + 1) && Has(kids[1..][i]) {
      assert kids[i + 1].node.next == KidNode(kids, i + 2) && Has(kids[i + 1]);
    }
  }

  lemma UnionAssoc(a: set<Node>, b: set<Node>, c: set<Node>)
    ensures (a + b) + c == a + (b + c)
  {
  }

  /** One round of that loop. */
  method DuplicateChild(child: Node, newitem: Node, last: Node?, mem: Memory, ghost nodes: set<Node>, ghost copies: set<Node>,
                        ghost kids: seq<Shape>, ghost made: seq<Shape>)
    returns (next: Node?, copy: Node, ghost c: Shape)
    requires Stage(newitem, child, last, nodes, copies, kids, made)
    modifies mem, newitem`child, copies`next
    ensures |made| < |kids| && Stage(newitem, next, copy, nodes, copies + NodesOf(c), kids, made + [c])
    ensures fresh(NodesOf(c)) && mem.live == old(mem.live) + NodesOf(c)
    decreases kids, 2
  {
    hide Copied, Built, Copies, Has, Listed, Stage;
    StageOpens(newitem, child, last, nodes, copies, kids, made);
    ghost var rest := kids[|made|..];
    next := child.next;
    copy, c := Duplicate(child, mem, rest[0]);
    LinkRound(newitem, last, copy, next, Only(last), nodes, kids, rest, made, c);
    StageMoves(newitem, next, copy, nodes, copies, kids, made, c);
  }

  lemma StageOpens(newitem: Node, child: Node, last: Node?, nodes: set<Node>, copies: set<Node>, kids: seq<Shape>, made: seq<Shape>)
    requires Stage(newitem, child, last, nodes, copies, kids, made)
    ensures |made| < |kids| && newitem !in nodes && copies !! nodes && NodesOfAll(made) == copies
    ensures var rest := kids[|made|..];
      && child == rest[0].node && Has(rest[0]) && Listed(child.next, rest[1..])
      && NodesOf(rest[0]) <= nodes && NodesOfAll(rest[1..]) <= nodes && Copied(newitem, made, kids, rest)
    ensures last == LastNode(made) && Only(last) <= copies
  {
    ListedRest(child, kids[|made|..]);
  }

  lemma StageMoves(newitem: Node, next: Node?, copy: Node, nodes: set<Node>, copies: set<Node>, kids: seq<Shape>, made: seq<Shape>, c: Shape)
    requires |made| < |kids| && newitem !in nodes && copies !! nodes && NodesOf(c) !! nodes && copy == c.node
    requires NodesOfAll(made + [c]) == copies + NodesOf(c)
    requires Listed(next, kids[|made|..][1..]) && NodesOfAll(kids[|made|..][1..]) <= nodes
    requires Copied(newitem, made + [c], kids, kids[|made|..][1..])
    ensures Stage(newitem, next, copy, nodes, copies + NodesOf(c), kids, made + [c])
  {
    SuffixRank(kids, |made|);
    assert LastNode(made + [c]) == c.node;
  }

  method LinkRound(newitem: Node, last: Node?, copy: Node, ghost next: Node?, ghost tail: set<Node>, ghost nodes: set<Node>,
                   ghost kids: seq<Shape>, ghost rest: seq<Shape>, ghost made: seq<Shape>, ghost c: Shape)
    requires rest != [] && Listed(next, rest[1..]) && NodesOfAll(rest[1..]) <= nodes
    requires newitem !in nodes && tail !! nodes && NodesOf(c) !! nodes
    requires Copied(newitem, made, kids, rest) && last == LastNode(made) && tail == Only(last)
    requires Built(c) && Copies(c, rest[0]) && copy == c.node && Loose(copy)
    requires NodesOf(c) !! NodesOfAll(made) && newitem !in NodesOf(c)
    modifies newitem`child, copy`prev, tail`next
    ensures Listed(next, rest[1..])
    ensures Copied(newitem, made + [c], kids, rest[1..]) && NodesOfAll(made + [c]) == NodesOfAll(made) + NodesOf(c)
  {
    hide Growing, Built, Copies, Has, Listed;
    NodesExistAll(rest[1..]);
    LinkCopy(newitem, last, copy, tail, made, c);
    CopiesOneMore(made, kids, c);
  }

  /** A copy owns all its nodes, once each. */
  lemma {:induction false} BuiltIsOwned(c: Shape)
    requires Built(c)
    ensures Owned(c) == NodesOf(c) && OwnedOnce(c)
    decreases c, 0
  {
    BuiltAreOwned(c.kids);
  }

  lemma {:induction false} BuiltAreOwned(kids: seq<Shape>)
    requires UnsharedAll(kids) && forall i :: 0 <= i < |kids| ==> Built(kids[i])
    ensures OwnedAll(kids) == NodesOfAll(kids) && OwnedOnceAll(kids)
    decreases kids, 1
  {
    if kids != [] {
      var rest := kids[1..];
      assert forall i :: 0 <= i < |rest| ==> rest[i] == kids[i + 1];
      BuiltIsOwned(kids[0]);
      BuiltAreOwned(rest);
      ApartFromRest(kids);
    }
  }

  lemma ApartFromRest(kids: seq<Shape>)
    requires kids != [] && forall j :: 0 < j < |kids| ==> NodesOf(kids[0]) !! NodesOf(kids[j])
    ensures NodesOf(kids[0]) !! NodesOfAll(kids[1..])
    decreases |kids|
  {
    if |kids| > 1 {
      var shorter := [kids[0]] + kids[2..];
      assert forall j :: 0 < j < |shorter| ==> shorter[j] == kids[j + 1];
      ApartFromRest(shorter);
      assert shorter[1..] == kids[1..][1..] && kids[1..][0] == kids[1];
    }
  }

  /** Deleting a copy gives back exactly what making it took. */
  method DuplicateThenDelete(item: Node, mem: Memory, ghost t: Shape)
    requires item == t.node && Has(t)
    modifies mem
    ensures mem.live == old(mem.live)
  {
    hide Built, Copies, ToJson, OwnedAll, OwnedOnceAll, Reaches, HasAll;
    var copy;
    ghost var c;
    copy, c := Duplicate(item, mem, t);
    BuiltAlone(copy, c);
    Delete(copy, [c], mem);
  }

  lemma BuiltAlone(copy: Node, c: Shape)
    requires Built(c) && copy == c.node && Loose(copy)
    ensures Reaches(copy, [c]) && HasAll([c]) && OwnedOnceAll([c]) && OwnedAll([c]) == NodesOf(c)
  {
    BuiltIsOwned(c);
    assert [c][1..] == [];
  }
}
