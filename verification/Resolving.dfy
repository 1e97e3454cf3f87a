// The loops of cJSON_Utils.c that write and resolve pointers, on the tree of nodes: finding the path
// of a node, and finding the node of a path, undo each other.
module Resolving {
  import opened Texts
  import opened Documents
  import opened Nodes
  import opened Pointers
  import opened Trees
  import opened Diffing

  // ----- tokens

  /** compare_pointers, case-insensitive. */
  method ComparePointers(name: string, pointer: string) returns (same: bool)
    requires '\0' !in name && '\0' !in pointer
    ensures same == MatchToken(name, pointer)
  {
    var i, j := 0, 0;
    assert name[0..] == name && pointer[0..] == pointer;
    while i < |name| && j < |pointer| && pointer[j] != '/'
      invariant 0 <= i <= |name| && 0 <= j <= |pointer|
      invariant MatchToken(name, pointer) == MatchToken(name[i..], pointer[j..])
    {
      Suffix(name, i);
      Suffix(pointer, j);
      if pointer[j] == '~' {
        var c := CharAt(pointer, j + 1);
        if (c != '0' as int || name[i] != '~') && (c != '1' as int || name[i] != '/') {
          return false;
        }
        j := j + 1;
      } else if ToLower(name[i]) != ToLower(pointer[j]) {
        return false;
      }
      i, j := i + 1, j + 1;
    }
    Suffix(name, i);
    Suffix(pointer, j);
    return (j < |pointer| && pointer[j] != '/') == (i < |name|);
  }

  lemma Suffix(s: string, i: nat)
    requires i <= |s|
    ensures i < |s| ==> s[i..][0] == s[i] && s[i..][1..] == s[i + 1..]
    ensures i + 1 < |s| ==> s[i..][1] == s[i + 1] && s[i..][2..] == s[i + 2..]
    ensures i == |s| ==> s[i..] == ""
  {
  }

  /** decode_array_index_from_pointer: the size_t wraps, and only the first character is held against '9'. */
  method DecodeArrayIndex(pointer: string) returns (r: Option<nat>)
    requires '\0' !in pointer
    ensures r == DecodeIndex(Token(pointer))
  {
    ghost var t := Token(pointer);
    TokenChars(pointer);
    if CharAt(pointer, 0) == '0' as int && CharAt(pointer, 1) != 0 && CharAt(pointer, 1) != '/' as int {
      return None;
    }
    var parsed: nat, position: nat := 0, 0;
    while CharAt(pointer, position) >= '0' as int && CharAt(pointer, 0) <= '9' as int
      invariant position <= |t| && (forall i :: 0 <= i < position ==> t[i] >= '0')
      invariant position > 0 ==> t[0] <= '9'
      invariant parsed == Accumulate(t[..position])
      decreases |pointer| - position
    {
      assert t[..position + 1][..position] == t[..position];
      parsed := (10 * parsed + (pointer[position] as int - '0' as int)) % SIZE_LIMIT;
      position := position + 1;
    }
    if CharAt(pointer, position) != 0 && CharAt(pointer, position) != '/' as int {
      return None;
    }
    assert t[..position] == t;
    return Some(parsed);
  }

  lemma TokenChars(p: string)
    requires '\0' !in p
    ensures |Token(p)| <= |p| && (forall i :: 0 <= i < |Token(p)| ==> CharAt(p, i) == Token(p)[i] as int != 0 && Token(p)[i] != '/')
    ensures CharAt(p, |Token(p)|) == 0 || CharAt(p, |Token(p)|) == '/' as int
  {
  }

  // ----- resolution

  /** The first child whose key the token at the start of q names. */
  function FindKid(kids: seq<Shape>, q: string): (i: nat)
    ensures i <= |kids|
    ensures forall k :: 0 <= k < i ==> !MatchToken(kids[k].data.key, q)
    ensures i < |kids| ==> MatchToken(kids[i].data.key, q)
  {
    if kids == [] || MatchToken(kids[0].data.key, q) then 0
    else
      assert forall k :: 1 <= k < |kids| ==> kids[k] == kids[1..][k - 1];
      1 + FindKid(kids[1..], q)
  }

  /** The child that the token at the start of q leads to. */
  function StepTo(t: Shape, q: string): (r: Option<Shape>)
    ensures r.Some? ==> r.value in t.kids
  {
    if t.data.tag == ARRAY then
      var i := DecodeIndex(Token(q));
      if i.Some? && i.value < |t.kids| then Some(t.kids[i.value]) else None
    else if t.data.tag == OBJECT then
      var i := FindKid(t.kids, q);
      if i < |t.kids| then Some(t.kids[i]) else None
    else None
  }

  /** The part of the tree that a pointer leads to. */
  function Locate(t: Option<Shape>, p: string): Option<Shape>
    decreases |p|
  {
    if t.None? || p == "" || p[0] != '/' then t else Locate(StepTo(t.value, p[1..]), Rest(p[1..]))
  }

  function NodeOf(s: Option<Shape>): Node? { if s.None? then null else s.value.node }

  /** get_array_item on the list of children. */
  method NthChild(parent: Node, index: nat, ghost kids: seq<Shape>) returns (child: Node?)
    requires Reaches(parent.child, kids)
    ensures child == KidNode(kids, index)
  {
    child := parent.child;
    var left := index;
    ghost var k: nat := 0;
    while child != null && left > 0
      invariant 0 <= left && k + left == index && k <= |kids| && child == KidNode(kids, k)
      decreases left
    {
      left := left - 1;
      child := child.next;
      k := k + 1;
    }
  }

  /** The loop of get_item_from_pointer over the members of an object. */
  method MatchingChild(parent: Node, pointer: string, ghost kids: seq<Shape>) returns (child: Node?)
    requires Reaches(parent.child, kids) && HasAll(kids) && '\0' !in pointer
    ensures child == KidNode(kids, FindKid(kids, pointer))
  {
    hide MatchToken, FindKid;
    NodesExistAll(kids);
    child := parent.child;
    ghost var k: nat := 0;
    while child != null
      invariant HasAll(kids) && k <= |kids| && child == KidNode(kids, k)
      invariant forall i :: 0 <= i < k ==> !MatchToken(kids[i].data.key, pointer)
      decreases |kids| - k
    {
      assert Has(kids[k]);
      var same := ComparePointers(child.key, pointer);
      if same {
        break;
      }
      child := child.next;
      k := k + 1;
    }
  }

  /** Skipping to the next token. */
  method SkipToken(pointer: string) returns (rest: string)
    ensures rest == Rest(pointer) && |rest| <= |pointer| && ('\0' !in pointer ==> '\0' !in rest)
  {
    rest := pointer;
    while rest != "" && rest[0] != '/'
      invariant Rest(rest) == Rest(pointer) && |rest| <= |pointer| && ('\0' !in pointer ==> '\0' !in rest)
      decreases |rest|
    {
      rest := rest[1..];
    }
  }

  /** get_item_from_pointer. */
  method GetItemFromPointer(root: Node, path: string, ghost t: Shape) returns (item: Node?)
    requires root == t.node && Has(t) && '\0' !in path
    ensures item == NodeOf(Locate(Some(t), path))
  {
    hide Locate, FindKid, DecodeIndex, MatchToken, Token, Rest;
    var pointer := path;
    item := root;
    ghost var at := Some(t);
    while pointer != "" && pointer[0] == '/' && item != null
      invariant item == NodeOf(at) && '\0' !in pointer && (at.Some? ==> Has(at.value))
      invariant Locate(at, pointer) == Locate(Some(t), path)
      decreases |pointer|
    {
      LocateStep(at, pointer);
      pointer := pointer[1..];
      ghost var s := at.value;
      at := StepTo(s, pointer);
      NodesExist(s);
      if at.Some? {
        assert Has(at.value);
        NodesExist(at.value);
      }
      if item.tag == ARRAY {
        var index := DecodeArrayIndex(pointer);
        if index.None? {
          LocateEnds(at, Rest(pointer));
          return null;
        }
        item := NthChild(item, index.value, s.kids);
      } else if item.tag == OBJECT {
        item := MatchingChild(item, pointer, s.kids);
      } else {
        LocateEnds(at, Rest(pointer));
        return null;
      }
      pointer := SkipToken(pointer);
    }
    LocateEnds(at, pointer);
  }

  lemma LocateStep(t: Option<Shape>, p: string)
    requires t.Some? && p != "" && p[0] == '/'
    ensures Locate(t, p) == Locate(StepTo(t.value, p[1..]), Rest(p[1..]))
  {
  }

  lemma LocateEnds(t: Option<Shape>, p: string)
    requires t.None? || p == "" || p[0] != '/'
    ensures Locate(t, p) == t
  {
  }

  lemma FindKidIsFindToken(kids: seq<Shape>, q: string)
    ensures FindKid(kids, q) == FindToken(ToMembers(kids), q)
  {
    var ms := ToMembers(kids);
    assert forall k :: 0 <= k < |kids| ==> ms[k].key == kids[k].data.key;
  }

  /** Resolution on the nodes is resolution on the value they stand for. */
  lemma {:induction false} LocateIsGetItem(t: Shape, p: string)
    ensures GetItem(ToJson(t), p) == match Locate(Some(t), p) case None => None case Some(s) => Some(ToJson(s))
    decreases |p|
  {
    hide MatchToken, DecodeIndex, FindKid, FindToken;
    if p != "" && p[0] == '/' {
      var q := p[1..];
      FindKidIsFindToken(t.kids, q);
      LocateStep(Some(t), p);
      if StepTo(t, q).Some? {
        LocateIsGetItem(StepTo(t, q).value, Rest(q));
      } else {
        LocateEnds(None, Rest(q));
      }
    }
  }

  // ----- finding the path of a node

  /** cJSONUtils_FindPointerFromObjectTo; stale: what the memory of the new path held before. */
  function PathTo(t: Shape, target: Node, stale: char): Option<string>
    decreases t, 0
  {
    if t.node == target then Some("") else PathAmong(t.data.tag, t.kids, 0, target, stale)
  }

  /** The search among the children from index i on. */
  function PathAmong(tag: Tag, kids: seq<Shape>, i: nat, target: Node, stale: char): Option<string>
    decreases kids, 1
  {
    if kids == [] then None
    else
      var p := PathTo(kids[0], target, stale);
      if p.None? then PathAmong(tag, kids[1..], i + 1, target, stale)
      else Prefixed(tag, i, kids[0].data.key, p.value, stale)
  }

  function Prefixed(tag: Tag, i: nat, key: string, p: string, stale: char): Option<string> {
    if tag == ARRAY then Some("/" + (Decimal(i) + p))
    else if tag == OBJECT then Some("/" + (Encode(key, stale) + p))
    else None
  }

  method FindPointerFromObjectTo(root: Node, target: Node, stale: char, ghost t: Shape) returns (path: Option<string>)
    requires root == t.node && Has(t)
    ensures path == PathTo(t, target, stale)
    decreases t
  {
    if root == target {
      return Some("");
    }
    var child, index := root.child, 0;
    NodesExist(t);
    while child != null
      invariant 0 <= index <= |t.kids| && child == KidNode(t.kids, index) && Has(t)
      invariant PathAmong(t.data.tag, t.kids, 0, target, stale) == PathAmong(t.data.tag, t.kids[index..], index, target, stale)
      decreases |t.kids| - index
    {
      ghost var kid := t.kids[index];
      assert t.kids[index..][0] == kid && t.kids[index..][1..] == t.kids[index + 1..];
      assert Has(kid);
      NodesExist(kid);
      var found := FindPointerFromObjectTo(child, target, stale, kid);
      if found.Some? {
        if root.tag == ARRAY {
          return Some("/" + (Decimal(index) + found.value));
        }
        if root.tag == OBJECT {
          return Some("/" + (Encode(child.key, stale) + found.value));
        }
        return None;
      }
      child, index := child.next, index + 1;
    }
    return None;
  }

  // ----- they undo each other

  /** Keys of one object differ when folded, none needs escaping, and arrays are no longer than a size_t counts. */
  predicate Plain(t: Shape)
    decreases t, 0
  {
    && (t.data.tag == OBJECT ==> DistinctKeys(ToMembers(t.kids)) && forall i :: 0 <= i < |t.kids| ==> Clean(t.kids[i].data.key))
    && (t.data.tag == ARRAY ==> |t.kids| < SIZE_LIMIT)
    && forall i :: 0 <= i < |t.kids| ==> Plain(t.kids[i])
  }

  lemma {:induction false} PathIsPointer(t: Shape, target: Node, stale: char)
    requires PathTo(t, target, stale).Some?
    ensures IsPointer(PathTo(t, target, stale).value)
    decreases t, 0
  {
    if t.node != target { var k, p := PathFrom(t.data.tag, t.kids, 0, target, stale); }
  }

  /** A path found among the children goes through one of them. */
  lemma {:induction false} PathFrom(tag: Tag, kids: seq<Shape>, i: nat, target: Node, stale: char) returns (k: nat, p: string)
    requires PathAmong(tag, kids, i, target, stale).Some?
    ensures k < |kids| && PathTo(kids[k], target, stale) == Some(p)
    ensures PathAmong(tag, kids, i, target, stale) == Prefixed(tag, i + k, kids[k].data.key, p, stale)
    decreases kids, 1
  {
    if PathTo(kids[0], target, stale).Some? {
      return 0, PathTo(kids[0], target, stale).value;
    }
    k, p := PathFrom(tag, kids[1..], i + 1, target, stale);
    k := k + 1;
  }

  /** An index token leads to the child at that index. */
  lemma StepToIndex(t: Shape, k: nat, p: string)
    requires t.data.tag == ARRAY && k < |t.kids| < SIZE_LIMIT && IsPointer(p)
    ensures StepTo(t, Decimal(k) + p) == Some(t.kids[k]) && Rest(Decimal(k) + p) == p
  {
    DecimalIsIndex(k);
    DecimalIsRegular(k);
    TokenOfConcat(Decimal(k), p);
    DecodeIndexExactlyWhenRegular(Decimal(k));
  }

  /** A key leads to the child that has it. */
  lemma StepToKey(t: Shape, k: nat, p: string)
    requires t.data.tag == OBJECT && k < |t.kids| && IsPointer(p)
    requires DistinctKeys(ToMembers(t.kids)) && Clean(t.kids[k].data.key)
    ensures StepTo(t, t.kids[k].data.key + p) == Some(t.kids[k]) && Rest(t.kids[k].data.key + p) == p
  {
    var key, ms := t.kids[k].data.key, ToMembers(t.kids);
    var q := key + p;
    TokenOfConcat(key, p);
    UnescapeClean(key);
    forall i | 0 <= i < |t.kids| ensures MatchToken(t.kids[i].data.key, q) <==> i == k {
      MatchTokenIsUnescape(t.kids[i].data.key, q);
      assert ms[i].key == t.kids[i].data.key && ms[k].key == key;
    }
  }

  /** Resolving the path that was found for a node leads back to that node. */
  lemma {:induction false} PathLeadsBack(t: Shape, target: Node, stale: char)
    requires Plain(t) && PathTo(t, target, stale).Some?
    ensures var r := Locate(Some(t), PathTo(t, target, stale).value); r.Some? && r.value.node == target
    decreases t
  {
    if t.node != target {
      var k, p := PathFrom(t.data.tag, t.kids, 0, target, stale);
      var kid := t.kids[k];
      PathIsPointer(kid, target, stale);
      PathLeadsBack(kid, target, stale);
      var token := if t.data.tag == ARRAY then Decimal(k) else kid.data.key;
      if t.data.tag == ARRAY {
        StepToIndex(t, k, p);
      } else {
        EncodeClean(kid.data.key, stale);
        StepToKey(t, k, p);
      }
      assert ("/" + (token + p))[1..] == token + p;
      LocateStep(Some(t), "/" + (token + p));
    }
  }

  /** Only arrays and objects have children. */
  predicate Containers(t: Shape)
    decreases t
  {
    (t.kids != [] ==> t.data.tag == ARRAY || t.data.tag == OBJECT) && forall i :: 0 <= i < |t.kids| ==> Containers(t.kids[i])
  }

  /** Exactly the nodes of the tree have a path. */
  lemma {:induction false} PathExists(t: Shape, target: Node, stale: char)
    requires Containers(t)
    ensures PathTo(t, target, stale).Some? <==> target in NodesOf(t)
    decreases t, 0
  {
    if t.node != target { PathExistsAmong(t.data.tag, t.kids, 0, target, stale); }
  }

  lemma {:induction false} PathExistsAmong(tag: Tag, kids: seq<Shape>, i: nat, target: Node, stale: char)
    requires (kids != [] ==> tag == ARRAY || tag == OBJECT) && forall i :: 0 <= i < |kids| ==> Containers(kids[i])
    ensures PathAmong(tag, kids, i, target, stale).Some? <==> target in NodesOfAll(kids)
    decreases kids, 1
  {
    if kids != [] {
      PathExists(kids[0], target, stale);
      PathExistsAmong(tag, kids[1..], i + 1, target, stale);
    }
  }

  lemma {:induction false} HasContainers(t: Shape)
    requires Has(t)
    ensures Containers(t)
    decreases t
  {
    forall i | 0 <= i < |t.kids| ensures Containers(t.kids[i]) {
      assert Has(t.kids[i]);
      HasContainers(t.kids[i]);
    }
  }

  lemma {:induction false} PathHasNoNul(t: Shape, target: Node, stale: char)
    requires Has(t) && Plain(t) && PathTo(t, target, stale).Some?
    ensures '\0' !in PathTo(t, target, stale).value
    decreases t
  {
    if t.node != target {
      var k, p := PathFrom(t.data.tag, t.kids, 0, target, stale);
      assert Has(t.kids[k]);
      PathHasNoNul(t.kids[k], target, stale);
      if t.data.tag == OBJECT { EncodeClean(t.kids[k].data.key, stale); }
    }
  }

  /** For every node of a plain tree, the path that is found for it resolves to that very node. */
  method FindThenGet(root: Node, target: Node, stale: char, ghost t: Shape) returns (path: Option<string>, item: Node?)
    requires root == t.node && Has(t) && Plain(t) && target in NodesOf(t)
    ensures path.Some? && item == target
  {
    HasContainers(t);
    PathExists(t, target, stale);
    PathLeadsBack(t, target, stale);
    PathHasNoNul(t, target, stale);
    NodesExist(t);
    path := FindPointerFromObjectTo(root, target, stale, t);
    item := GetItemFromPointer(root, path.value, t);
  }
}
