// JSON Patch: the operations of section 4 of RFC 6902 on abstract documents, apply_patch on trees,
// and the proof that every successful step of the second is the matching step of the first.
module Patching {
  import opened Texts
  import opened Documents
  import opened Comparing
  import opened Pointers

  // ----- section 4 of RFC 6902

  function AddChild(d: Doc, t: string, v: Doc): Option<Doc> {
    match d
    case DArray(items) =>
      if t == "-" then Some(DArray(items + [v]))
      else
        var i := Index(t);
        if i.Some? && i.value <= |items| then Some(DArray(items[..i.value] + [v] + items[i.value..])) else None
    case DObject(m) =>
      var k := Unescape(t);
      if k.Some? then Some(DObject(m[Fold(k.value) := v])) else None
    case _ => None
  }

  function RemoveChild(d: Doc, t: string): Option<Doc> {
    if Child(d, t).None? then None
    else match d
      case DArray(items) => Some(DArray(Without(items, Index(t).value)))
      case DObject(m) => Some(DObject(m - {Fold(Unescape(t).value)}))
  }

  function Init(ts: seq<string>): seq<string>
    requires ts != []
  {
    ts[..|ts| - 1]
  }

  function Last(ts: seq<string>): string
    requires ts != []
  {
    ts[|ts| - 1]
  }

  /** The document with the value at ts changed into v, if there is such a v. */
  function SetOption(d: Doc, ts: seq<string>, v: Option<Doc>): Option<Doc>
    requires Get(d, ts).Some?
  {
    if v.Some? then Some(Set(d, ts, v.value)) else None
  }

  /** The parent of the location must exist. */
  function Add(d: Doc, ts: seq<string>, v: Doc): Option<Doc> {
    if ts == [] then Some(v)
    else
      var p := Get(d, Init(ts));
      if p.None? then None else SetOption(d, Init(ts), AddChild(p.value, Last(ts), v))
  }

  /** Removing the whole document leaves no valid one. */
  function Remove(d: Doc, ts: seq<string>): Option<Doc> {
    if ts == [] then Some(DInvalid)
    else
      var p := Get(d, Init(ts));
      if p.None? then None else SetOption(d, Init(ts), RemoveChild(p.value, Last(ts)))
  }

  function Replace(d: Doc, ts: seq<string>, v: Doc): Option<Doc> {
    if Get(d, ts).Some? then Some(Set(d, ts, v)) else None
  }

  /** A remove at one location, followed by an add of the removed value at the other. */
  function Relocate(d: Doc, from: seq<string>, ts: seq<string>): Option<Doc> {
    if Get(d, from).None? || Remove(d, from).None? then None
    else Add(Remove(d, from).value, ts, Get(d, from).value)
  }

  predicate ProperPrefix(from: seq<string>, ts: seq<string>) { |from| < |ts| && from == ts[..|from|] }

  /** Section 4.4: a relocation, but a location cannot be moved into one of its children. */
  function Move(d: Doc, from: seq<string>, ts: seq<string>): Option<Doc> {
    if ProperPrefix(from, ts) then None else Relocate(d, from, ts)
  }

  function Copy(d: Doc, from: seq<string>, ts: seq<string>): Option<Doc> {
    if Get(d, from).None? then None else Add(d, ts, Get(d, from).value)
  }

  function Test(d: Doc, ts: seq<string>, v: Doc): Option<Doc> {
    if Get(d, ts) == Some(v) then Some(d) else None
  }

  // ----- the fields of a patch object

  datatype Opcode = INVALID | ADD | REMOVE | REPLACE | MOVE | COPY | TEST

  function StringField(patch: Json, name: string): Option<string> {
    match GetObjectItem(patch, name)
    case Some(String(s)) => Some(s)
    case _ => None
  }

  /** decode_patch_operation. */
  function DecodeOperation(patch: Json): Opcode {
    match StringField(patch, "op")
    case None => INVALID
    case Some(s) =>
      if s == "add" then ADD
      else if s == "remove" then REMOVE
      else if s == "replace" then REPLACE
      else if s == "move" then MOVE
      else if s == "copy" then COPY
      else if s == "test" then TEST
      else INVALID
  }

  /** The fields of a patch object that has a path and a known operation. */
  datatype Request = Request(op: Opcode, path: string, from: Option<Json>, value: Option<Json>) {
    /** The text of "from", if it is a string. */
    function From(): Option<string> {
      if from.Some? && from.value.String? then Some(from.value.text) else None
    }
  }

  function ReadRequest(patch: Json): Request
    requires StringField(patch, "path").Some?
  {
    Request(DecodeOperation(patch), StringField(patch, "path").value,
            GetObjectItem(patch, "from"), GetObjectItem(patch, "value"))
  }

  /** What section 4 of RFC 6902 makes of a request; None when the operation is in error. */
  function Operation(d: Doc, q: Request): Option<Doc> {
    var ts := Tokens(q.path);
    match q.op
    case INVALID => None
    case REMOVE => Remove(d, ts)
    case MOVE => if q.From().None? then None else Move(d, Tokens(q.From().value), ts)
    case COPY => if q.From().None? then None else Copy(d, Tokens(q.From().value), ts)
    case ADD => if q.value.None? then None else Add(d, ts, Abs(q.value.value))
    case REPLACE => if q.value.None? then None else Replace(d, ts, Abs(q.value.value))
    case TEST => if q.value.None? then None else Test(d, ts, Abs(q.value.value))
  }

  // ----- apply_patch

  /** The tree and the status that apply_patch leaves. */
  datatype Outcome = Outcome(doc: Json, status: nat)

  /** The last slash of a path (strrchr). */
  function LastSlash(p: string): (r: Option<nat>)
    ensures r.Some? ==> r.value < |p| && p[r.value] == '/' && '/' !in p[r.value + 1..]
    ensures r.None? ==> '/' !in p
  {
    if p == "" then None
    else if p[|p| - 1] == '/' then Some(|p| - 1)
    else
      var r := LastSlash(p[..|p| - 1]);
      assert p == p[..|p| - 1] + [p[|p| - 1]];
      assert r.Some? ==> p[r.value + 1..] == p[..|p| - 1][r.value + 1..] + [p[|p| - 1]];
      r
  }

  datatype Detached = Detached(rest: Json, item: Json)

  /** detach_item_from_array, or cJSON_DetachItemFromObject. */
  function DetachChild(parent: Json, child: string): Option<Detached> {
    match parent
    case Array(items) =>
      var i := DecodeIndex(Token(child));
      if i.Some? && i.value < |items| then Some(Detached(Array(Without(items, i.value)), items[i.value])) else None
    case Object(ms) =>
      var i := Find(ms, child);
      if i < |ms| then Some(Detached(Object(Without(ms, i)), ms[i].value)) else None
    case _ => None
  }

  function DetachAt(doc: Json, up: string, child: string): Option<Detached> {
    var parent := GetItem(doc, up);
    if parent.None? then None
    else
      var r := DetachChild(parent.value, child);
      if r.None? then None else Some(r.value.(rest := PutItem(doc, up, r.value.rest)))
  }

  /** detach_path: the path is split at its last slash. */
  function DetachPath(doc: Json, path: string): Option<Detached> {
    match LastSlash(path)
    case None => None
    case Some(i) => DetachAt(doc, path[..i], DecodeInPlace(path[i + 1..]))
  }

  /** insert_item_in_array: an index past the end is refused, the end itself appends. */
  function InsertItem(items: seq<Json>, i: nat, v: Json): seq<Json>
    requires i <= |items|
  {
    items[..i] + [v] + items[i..]
  }

  /** Giving the parent a new child; the status says why that fails. */
  function AttachChild(parent: Json, child: string, v: Json): Outcome {
    match parent
    case Array(items) =>
      if child == "-" then Outcome(Array(items + [v]), 0)
      else
        var i := DecodeIndex(Token(child));
        if i.None? then Outcome(parent, 11)
        else if i.value > |items| then Outcome(parent, 10)
        else Outcome(Array(InsertItem(items, i.value, v)), 0)
    case Object(ms) => Outcome(Object(DeleteKey(ms, child) + [Member(child, v)]), 0)
    case _ => Outcome(parent, 9)
  }

  function AttachAt(doc: Json, up: string, child: string, v: Json): Outcome {
    var parent := GetItem(doc, up);
    if parent.None? then Outcome(doc, 9)
    else
      var r := AttachChild(parent.value, child, v);
      if r.status == 0 then Outcome(PutItem(doc, up, r.doc), 0) else Outcome(doc, r.status)
  }

  function AttachPath(doc: Json, path: string, v: Json): Outcome {
    match LastSlash(path)
    case None => Outcome(doc, 9)
    case Some(i) => AttachAt(doc, path[..i], DecodeInPlace(path[i + 1..]), v)
  }

  /**
   * apply_patch. Status 0 is success; on failure the tree may be left changed: a failed replace or
   * move has already detached its item.
   */
  function ApplyPatch(doc: Json, patch: Json): Outcome {
    if StringField(patch, "path").None? then Outcome(doc, 2)
    else if DecodeOperation(patch).INVALID? then Outcome(doc, 3)
    else Apply(doc, ReadRequest(patch))
  }

  lemma ApplyPatchReads(doc: Json, patch: Json)
    requires StringField(patch, "path").Some? && !DecodeOperation(patch).INVALID?
    ensures ApplyPatch(doc, patch) == Apply(doc, ReadRequest(patch))
  {
  }

  function Apply(doc: Json, q: Request): Outcome
    requires !q.op.INVALID?
  {
    if q.op.TEST? then ApplyTest(doc, q.path, q.value)
    else if q.path == "" && q.op.REMOVE? then Outcome(Invalid, 0)
    else if q.path == "" && (q.op.REPLACE? || q.op.ADD?) then
      if q.value.None? then Outcome(doc, 7) else Outcome(q.value.value, 0)
    else if q.op.REMOVE? then ApplyRemove(doc, q.path)
    else if q.op.REPLACE? then ApplyReplace(doc, q.path, q.value)
    else if q.op.ADD? then
      if q.value.None? then Outcome(doc, 7) else AttachPath(doc, q.path, q.value.value)
    else if q.from.None? then Outcome(doc, 4)
    else if q.From().None? then Outcome(doc, 5)
    else if q.op.MOVE? then ApplyMove(doc, q.From().value, q.path)
    else ApplyCopy(doc, q.From().value, q.path)
  }

  function ApplyRemove(doc: Json, path: string): Outcome {
    match DetachPath(doc, path)
    case None => Outcome(doc, 13)
    case Some(cut) => Outcome(cut.rest, 0)
  }

  function ApplyReplace(doc: Json, path: string, value: Option<Json>): Outcome {
    match DetachPath(doc, path)
    case None => Outcome(doc, 13)
    case Some(cut) => if value.None? then Outcome(cut.rest, 7) else AttachPath(cut.rest, path, value.value)
  }

  function ApplyMove(doc: Json, from: string, path: string): Outcome {
    match DetachPath(doc, from)
    case None => Outcome(doc, 5)
    case Some(cut) => AttachPath(cut.rest, path, cut.item)
  }

  function ApplyCopy(doc: Json, from: string, path: string): Outcome {
    match GetItem(doc, from)
    case None => Outcome(doc, 5)
    case Some(item) => AttachPath(doc, path, item)
  }

  /** The comparison sorts the objects it visits inside the tree. */
  function ApplyTest(doc: Json, path: string, value: Option<Json>): Outcome {
    var item := GetItem(doc, path);
    if item.None? || value.None? then Outcome(doc, 1)
    else
      var c := CompareJson(item.value, value.value);
      Outcome(PutItem(doc, path, c.a), if c.same then 0 else 1)
  }

  /** cJSONUtils_ApplyPatches on the elements of the patch array: stops at the first failure. */
  function ApplyPatches(doc: Json, patches: seq<Json>): Outcome
    decreases |patches|
  {
    if patches == [] then Outcome(doc, 0)
    else
      var r := ApplyPatch(doc, patches[0]);
      if r.status != 0 then r else ApplyPatches(r.doc, patches[1..])
  }

  /** The "from" of a move is a string if it is there: apply_patch reads its text without a look at its type. */
  predicate NamesSource(patch: Json) {
    StringField(patch, "path").Some? && DecodeOperation(patch).MOVE? && GetObjectItem(patch, "from").Some? ==>
      GetObjectItem(patch, "from").value.String?
  }

  /** A test that may sort objects of the document. */
  predicate Sorts(patch: Json) {
    && DecodeOperation(patch).TEST?
    && var value := GetObjectItem(patch, "value"); value.Some? && (value.value.Array? || value.value.Object?)
  }

  /** Once a test may have sorted objects there are only tests. */
  predicate TestsLast(patches: seq<Json>) {
    forall i, j :: 0 <= i < j < |patches| && Sorts(patches[i]) ==> DecodeOperation(patches[j]).TEST?
  }

  // ----- locations in a document

  lemma {:induction false} GetAppend(d: Doc, ts: seq<string>, us: seq<string>)
    ensures Get(d, ts + us) == if Get(d, ts).Some? then Get(Get(d, ts).value, us) else None
    decreases |ts|
  {
    if ts == [] {
      assert ts + us == us;
    } else {
      assert (ts + us)[1..] == ts[1..] + us;
      if Child(d, ts[0]).Some? { GetAppend(Child(d, ts[0]).value, ts[1..], us); }
    }
  }

  lemma ChildOfSetChild(d: Doc, t: string, v: Doc)
    requires Child(d, t).Some?
    ensures Child(SetChild(d, t, v), t) == Some(v)
  {
  }

  lemma SetChildTwice(d: Doc, t: string, v: Doc, w: Doc)
    requires Child(d, t).Some? && Child(SetChild(d, t, v), t).Some?
    ensures SetChild(SetChild(d, t, v), t, w) == SetChild(d, t, w)
  {
    match d
    case DArray(items) =>
      var i := Index(t).value;
      assert items[i := v][i := w] == items[i := w];
    case DObject(m) =>
      var k := Fold(Unescape(t).value);
      assert m[k := v][k := w] == m[k := w];
  }

  lemma {:induction false} GetSet(d: Doc, ts: seq<string>, v: Doc)
    requires Get(d, ts).Some?
    ensures Get(Set(d, ts, v), ts) == Some(v)
    decreases |ts|
  {
    if ts != [] {
      var c := Child(d, ts[0]).value;
      GetSet(c, ts[1..], v);
      ChildOfSetChild(d, ts[0], Set(c, ts[1..], v));
    }
  }

  lemma {:induction false} SetSet(d: Doc, ts: seq<string>, v: Doc, w: Doc)
    requires Get(d, ts).Some?
    ensures Get(Set(d, ts, v), ts).Some?
    ensures Set(Set(d, ts, v), ts, w) == Set(d, ts, w)
    decreases |ts|
  {
    GetSet(d, ts, v);
    if ts != [] {
      var c := Child(d, ts[0]).value;
      var x := Set(c, ts[1..], v);
      SetSet(c, ts[1..], v, w);
      ChildOfSetChild(d, ts[0], x);
      SetChildTwice(d, ts[0], x, Set(x, ts[1..], w));
    }
  }

  lemma {:induction false} SetGet(d: Doc, ts: seq<string>)
    requires Get(d, ts).Some?
    ensures Set(d, ts, Get(d, ts).value) == d
    decreases |ts|
  {
    if ts != [] {
      SetGet(Child(d, ts[0]).value, ts[1..]);
      match d
      case DArray(items) => assert items[Index(ts[0]).value := items[Index(ts[0]).value]] == items;
      case DObject(m) => assert m[Fold(Unescape(ts[0]).value) := m[Fold(Unescape(ts[0]).value)]] == m;
    }
  }

  lemma {:induction false} SetAppend(d: Doc, ts: seq<string>, us: seq<string>, v: Doc)
    requires Get(d, ts + us).Some?
    ensures Get(d, ts).Some? && Get(Get(d, ts).value, us).Some?
    ensures Set(d, ts + us, v) == Set(d, ts, Set(Get(d, ts).value, us, v))
    decreases |ts|
  {
    GetAppend(d, ts, us);
    if ts == [] {
      assert ts + us == us;
    } else {
      assert (ts + us)[1..] == ts[1..] + us;
      SetAppend(Child(d, ts[0]).value, ts[1..], us, v);
    }
  }

  lemma {:induction false} RegularAppend(d: Doc, ts: seq<string>, t: string)
    ensures Regular(d, ts + [t]) <==>
      && Regular(d, ts)
      && (Get(d, ts).Some? && Get(d, ts).value.DArray? ==> RegularToken(t))
    decreases |ts|
  {
    var us := ts + [t];
    if ts == [] {
      assert us[1..] == [];
    } else {
      assert us[1..] == ts[1..] + [t];
      if Child(d, ts[0]).Some? { RegularAppend(Child(d, ts[0]).value, ts[1..], t); }
    }
  }

  lemma AddAfterRemoveChild(p: Doc, t: string, v: Doc)
    requires Child(p, t).Some?
    ensures RemoveChild(p, t).Some?
    ensures AddChild(RemoveChild(p, t).value, t, v) == Some(SetChild(p, t, v))
  {
    match p
    case DArray(items) =>
      var i := Index(t).value;
      var w := Without(items, i);
      assert t != "-";
      assert w[..i] + [v] + w[i..] == items[i := v];
    case DObject(m) =>
      var k := Fold(Unescape(t).value);
      assert (m - {k})[k := v] == m[k := v];
  }

  lemma SplitLast(d: Doc, ts: seq<string>)
    requires ts != []
    ensures ts == Init(ts) + [Last(ts)]
    ensures Get(d, ts) == if Get(d, Init(ts)).Some? then Child(Get(d, Init(ts)).value, Last(ts)) else None
  {
    var t := Last(ts);
    assert ts == Init(ts) + [t];
    GetAppend(d, Init(ts), [t]);
    if Get(d, Init(ts)).Some? {
      var p := Get(d, Init(ts)).value;
      if Child(p, t).Some? { assert Get(p, [t]) == Get(Child(p, t).value, []); }
    }
  }

  lemma SetLast(d: Doc, ts: seq<string>, v: Doc)
    requires ts != [] && Get(d, ts).Some?
    ensures Get(d, Init(ts)).Some? && Child(Get(d, Init(ts)).value, Last(ts)).Some?
    ensures Set(d, ts, v) == Set(d, Init(ts), SetChild(Get(d, Init(ts)).value, Last(ts), v))
  {
    SplitLast(d, ts);
    SetAppend(d, Init(ts), [Last(ts)], v);
    var p := Get(d, Init(ts)).value;
    assert Set(p, [Last(ts)], v) == SetChild(p, Last(ts), Set(Child(p, Last(ts)).value, [], v));
  }

  /** Section 4.3 of RFC 6902: replace is a remove followed by an add at the same location. */
  lemma ReplaceIsRemoveThenAdd(d: Doc, ts: seq<string>, v: Doc)
    requires ts != []
    ensures Replace(d, ts, v) == if Remove(d, ts).Some? then Add(Remove(d, ts).value, ts, v) else None
  {
    var init, t := Init(ts), Last(ts);
    SplitLast(d, ts);
    if Get(d, ts).Some? {
      var p := Get(d, init).value;
      AddAfterRemoveChild(p, t, v);
      var p' := RemoveChild(p, t).value;
      assert Remove(d, ts) == Some(Set(d, init, p'));
      GetSet(d, init, p');
      SetSet(d, init, p', SetChild(p, t, v));
      SetLast(d, ts, v);
    }
  }

  // ----- apply_patch does what RFC 6902 says

  /** A path the patch code reads as RFC 6901 does: the decoder gets its last token right. */
  predicate PlainPath(p: string) {
    IsPointer(p) && (Tokens(p) != [] ==> Plain(Last(Tokens(p))))
  }

  lemma SplitText(p: string, i: nat)
    requires i < |p| && p[i] == '/' && IsPointer(p)
    ensures p == p[..i] + "/" + p[i + 1..] && IsPointer(p[..i])
  {
  }

  lemma SplitPath(p: string)
    requires PlainPath(p) && p != ""
    ensures LastSlash(p).Some?
    ensures var i := LastSlash(p).value;
      && IsPointer(p[..i])
      && Tokens(p) != [] && Init(Tokens(p)) == Tokens(p[..i]) && Last(Tokens(p)) == p[i + 1..]
      && Plain(p[i + 1..])
  {
    hide Tokens, Plain;
    assert p[0] == '/';
    var i := LastSlash(p).value;
    SplitText(p, i);
    TokensAppend(p[..i], p[i + 1..]);
  }

  lemma DistinctArrays()
    ensures forall s: seq<Json> :: Distinct(Array(s)) <==> forall i :: 0 <= i < |s| ==> Distinct(s[i])
  {
  }

  lemma ElementsInserted(items: seq<Json>, i: nat, v: Json)
    requires i <= |items|
    ensures Elements(InsertItem(items, i, v)) == Elements(items)[..i] + [Abs(v)] + Elements(items)[i..]
    ensures Distinct(Array(items)) && Distinct(v) ==> Distinct(Array(InsertItem(items, i, v)))
  {
    hide Abs, Distinct;
    var r := InsertItem(items, i, v);
    forall k | 0 <= k < |r| ensures r[k] == if k < i then items[k] else if k == i then v else items[k - 1] {}
    assert Elements(r) == Elements(items)[..i] + [Abs(v)] + Elements(items)[i..];
    DistinctArrays();
  }

  lemma ElementsWithout(items: seq<Json>, i: nat)
    requires i < |items|
    ensures Elements(Without(items, i)) == Without(Elements(items), i)
    ensures Distinct(Array(items)) ==> Distinct(Array(Without(items, i)))
  {
    var w := Without(items, i);
    assert forall k :: 0 <= k < |w| ==> w[k] == items[if k < i then k else k + 1];
  }

  /** Removing a child, for a plain token and the key it stands for. */
  lemma DetachChildIsRemoveChild(parent: Json, t: string)
    requires Distinct(parent) && Plain(t) && (parent.Array? ==> RegularToken(t))
    ensures var r := DetachChild(parent, DecodeInPlace(t));
      && (r.Some? <==> Child(Abs(parent), t).Some?)
      && (r.Some? ==>
            && RemoveChild(Abs(parent), t) == Some(Abs(r.value.rest))
            && Child(Abs(parent), t) == Some(Abs(r.value.item))
            && Distinct(r.value.rest) && Distinct(r.value.item))
  {
    PlainKey(t);
    match parent
    case Array(items) => DetachItemIsRemoveItem(items, t);
    case Object(ms) => DetachMemberIsRemoveMember(ms, t);
    case _ =>
  }

  lemma DetachItemIsRemoveItem(items: seq<Json>, t: string)
    requires Distinct(Array(items)) && Plain(t) && RegularToken(t)
    ensures var r := DetachChild(Array(items), DecodeInPlace(t));
      && (r.Some? <==> Child(Abs(Array(items)), t).Some?)
      && (r.Some? ==>
            && RemoveChild(Abs(Array(items)), t) == Some(Abs(r.value.rest))
            && Child(Abs(Array(items)), t) == Some(Abs(r.value.item))
            && Distinct(r.value.rest) && Distinct(r.value.item))
  {
    hide RegularToken, Index, DecodeIndex, Plain, Unescape, DecodeInPlace;
    PlainIndex(t);
    assert Abs(Array(items)) == DArray(Elements(items));
    var i := Index(t);
    if i.Some? && i.value < |items| { ElementsWithout(items, i.value); }
  }

  lemma DetachMemberIsRemoveMember(ms: seq<Member<Json>>, t: string)
    requires DistinctMembers(ms) && Plain(t)
    ensures var r := DetachChild(Object(ms), DecodeInPlace(t));
      && (r.Some? <==> Child(Abs(Object(ms)), t).Some?)
      && (r.Some? ==>
            && RemoveChild(Abs(Object(ms)), t) == Some(Abs(r.value.rest))
            && Child(Abs(Object(ms)), t) == Some(Abs(r.value.item))
            && Distinct(r.value.rest) && Distinct(r.value.item))
  {
    hide Fold, Unescape, DecodeInPlace, Settles;
    PlainKey(t);
    var u := DecodeInPlace(t);
    FindIsField(ms, u);
    var i := Find(ms, u);
    if i < |ms| {
      FieldsWithout(ms, i);
      DistinctDelete(ms, u);
    }
  }

  lemma DetachAtIsRemove(doc: Json, up: string, t: string)
    requires Distinct(doc) && Plain(t) && Regular(Abs(doc), Tokens(up) + [t])
    ensures var r, ts := DetachAt(doc, up, DecodeInPlace(t)), Tokens(up) + [t];
      && (r.Some? <==> Remove(Abs(doc), ts).Some?)
      && (r.Some? ==>
            && Remove(Abs(doc), ts) == Some(Abs(r.value.rest))
            && Get(Abs(doc), ts) == Some(Abs(r.value.item))
            && Distinct(r.value.rest) && Distinct(r.value.item))
  {
    hide GetItem, PutItem, DetachChild, Regular, RegularToken, Tokens, Plain, DecodeInPlace, Get, Set, Child,
      RemoveChild;
    var ts := Tokens(up) + [t];
    assert Init(ts) == Tokens(up) && Last(ts) == t;
    SplitLast(Abs(doc), ts);
    RegularAppend(Abs(doc), Tokens(up), t);
    GetItemIsGet(doc, up);
    if GetItem(doc, up).Some? {
      GetItemDistinct(doc, up);
      DetachChildIsRemoveChild(GetItem(doc, up).value, t);
      RemovesExactlyChildren(Abs(GetItem(doc, up).value), t);
      var r := DetachChild(GetItem(doc, up).value, DecodeInPlace(t));
      if r.Some? { PutItemIsSet(doc, up, r.value.rest); }
    }
  }

  lemma RemovesExactlyChildren(d: Doc, t: string)
    ensures RemoveChild(d, t).Some? <==> Child(d, t).Some?
  {
  }

  lemma DetachPathIsRemove(doc: Json, path: string)
    requires Distinct(doc) && PlainPath(path) && path != "" && Regular(Abs(doc), Tokens(path))
    ensures var r, ts := DetachPath(doc, path), Tokens(path);
      && (r.Some? <==> Remove(Abs(doc), ts).Some?)
      && (r.Some? ==>
            && Remove(Abs(doc), ts) == Some(Abs(r.value.rest))
            && Get(Abs(doc), ts) == Some(Abs(r.value.item))
            && Distinct(r.value.rest) && Distinct(r.value.item))
  {
    SplitPath(path);
    var i := LastSlash(path).value;
    SplitLast(Abs(doc), Tokens(path));
    DetachAtIsRemove(doc, path[..i], path[i + 1..]);
  }

  lemma AttachChildIsAddChild(parent: Json, t: string, v: Json)
    requires Distinct(parent) && Distinct(v) && Plain(t) && (parent.Array? ==> RegularToken(t))
    ensures var r := AttachChild(parent, DecodeInPlace(t), v);
      && (r.status == 0 <==> AddChild(Abs(parent), t, Abs(v)).Some?)
      && (r.status == 0 ==> AddChild(Abs(parent), t, Abs(v)) == Some(Abs(r.doc)) && Distinct(r.doc))
  {
    hide Settles, Unescape, DecodeInPlace, Fold;
    PlainKey(t);
    match parent
    case Array(items) => AttachItemIsAddItem(items, t, v);
    case Object(ms) =>
      FieldsReplace(ms, DecodeInPlace(t), v);
      DistinctDelete(ms, DecodeInPlace(t));
    case _ =>
  }

  lemma AttachItemIsAddItem(items: seq<Json>, t: string, v: Json)
    requires Distinct(Array(items)) && Distinct(v) && RegularToken(t) && Plain(t)
    ensures var r := AttachChild(Array(items), DecodeInPlace(t), v);
      && (r.status == 0 <==> AddChild(DArray(Elements(items)), t, Abs(v)).Some?)
      && (r.status == 0 ==> AddChild(DArray(Elements(items)), t, Abs(v)) == Some(Abs(r.doc)) && Distinct(r.doc))
  {
    hide Index, DecodeIndex, RegularToken, Token, Plain, DecodeInPlace;
    PlainIndex(t);
    if t == "-" {
      ElementsInserted(items, |items|, v);
      assert InsertItem(items, |items|, v) == items + [v];
      assert Elements(items)[..|items|] + [Abs(v)] + Elements(items)[|items|..] == Elements(items) + [Abs(v)];
    } else if Index(t).Some? && Index(t).value <= |items| {
      ElementsInserted(items, Index(t).value, v);
    }
  }

  lemma AttachAtIsAdd(doc: Json, up: string, t: string, v: Json)
    requires Distinct(doc) && Distinct(v) && Plain(t) && Regular(Abs(doc), Tokens(up) + [t])
    ensures var r, s := AttachAt(doc, up, DecodeInPlace(t), v), Add(Abs(doc), Tokens(up) + [t], Abs(v));
      && (r.status == 0 <==> s.Some?)
      && (r.status == 0 ==> s == Some(Abs(r.doc)) && Distinct(r.doc))
  {
    hide GetItem, PutItem, AttachChild, Regular, Tokens, AddChild, Plain, DecodeInPlace;
    var ts := Tokens(up) + [t];
    assert Init(ts) == Tokens(up) && Last(ts) == t;
    RegularAppend(Abs(doc), Tokens(up), t);
    GetItemIsGet(doc, up);
    if GetItem(doc, up).Some? {
      GetItemDistinct(doc, up);
      AttachChildIsAddChild(GetItem(doc, up).value, t, v);
      var r := AttachChild(GetItem(doc, up).value, DecodeInPlace(t), v);
      if r.status == 0 { PutItemIsSet(doc, up, r.doc); }
    }
  }

  lemma AttachPathIsAdd(doc: Json, path: string, v: Json)
    requires Distinct(doc) && Distinct(v) && PlainPath(path) && path != "" && Regular(Abs(doc), Tokens(path))
    ensures var r, s := AttachPath(doc, path, v), Add(Abs(doc), Tokens(path), Abs(v));
      && (r.status == 0 <==> s.Some?)
      && (r.status == 0 ==> s == Some(Abs(r.doc)) && Distinct(r.doc))
  {
    hide AttachAt, Regular, Token, Tokens, Add, Unescape;
    SplitPath(path);
    var i := LastSlash(path).value;
    SplitLast(Abs(doc), Tokens(path));
    AttachAtIsAdd(doc, path[..i], path[i + 1..], v);
  }

  /** Removing the location a regular path ends in leaves the path regular. */
  lemma RegularAfterRemove(d: Doc, ts: seq<string>)
    requires ts != [] && Regular(d, ts) && Remove(d, ts).Some?
    ensures Regular(Remove(d, ts).value, ts)
  {
    var init, t := Init(ts), Last(ts);
    assert ts == init + [t];
    RegularAppend(d, init, t);
    var p := Get(d, init).value;
    var p' := RemoveChild(p, t).value;
    RegularSet(d, init, p');
    GetSet(d, init, p');
    RegularAppend(Set(d, init, p'), init, t);
  }

  lemma {:induction false} RegularSet(d: Doc, ts: seq<string>, v: Doc)
    requires Regular(d, ts) && Get(d, ts).Some?
    ensures Regular(Set(d, ts, v), ts)
    decreases |ts|
  {
    if ts != [] {
      var c := Child(d, ts[0]).value;
      RegularSet(c, ts[1..], v);
      ChildOfSetChild(d, ts[0], Set(c, ts[1..], v));
    }
  }

  /** The requests for which apply_patch promises RFC 6902 on the document d. */
  predicate Readable(d: Doc, q: Request) {
    var from := q.From();
    && (if q.op.TEST? then IsPointer(q.path) else PlainPath(q.path))
    && (!q.op.MOVE? ==> Regular(d, Tokens(q.path)))
    && (q.op.COPY? && from.Some? ==> IsPointer(from.value) && Regular(d, Tokens(from.value)))
    && (q.op.MOVE? && from.Some? ==>
          && PlainPath(from.value) && Regular(d, Tokens(from.value))
          && (Remove(d, Tokens(from.value)).Some? ==>
                Regular(Remove(d, Tokens(from.value)).value, Tokens(q.path))))
  }

  /** A move or copy of an existing value onto the root, which RFC 6902 allows and apply_patch refuses. */
  predicate OntoRoot(d: Doc, q: Request) {
    && (q.op.MOVE? || q.op.COPY?) && q.path == ""
    && q.From().Some? && Get(d, Tokens(q.From().value)).Some?
  }

  /** The value that comes to stand at a location when the one there is removed: the next element of its array. */
  function Successor(d: Doc, at: seq<string>): Option<Doc> {
    if at == [] || Get(d, Init(at)).None? then None
    else match Get(d, Init(at)).value
      case DArray(items) =>
        var i := Index(Last(at));
        if i.Some? && i.value + 1 < |items| then Some(items[i.value + 1]) else None
      case _ => None
  }

  /** The target lies below the moved value, and the value could be added there inside the next element instead. */
  predicate Shifts(d: Doc, from: seq<string>, ts: seq<string>) {
    && ProperPrefix(from, ts) && Get(d, from).Some? && Successor(d, from).Some?
    && Add(Successor(d, from).value, ts[|from|..], Get(d, from).value).Some?
  }

  lemma AddBelow(d: Doc, from: seq<string>, us: seq<string>, v: Doc)
    requires us != []
    ensures Add(d, from + us, v).Some? <==> Get(d, from).Some? && Add(Get(d, from).value, us, v).Some?
  {
    hide Get, Set, AddChild;
    assert Init(from + us) == from + Init(us) && Last(from + us) == Last(us);
    GetAppend(d, from, Init(us));
  }

  /** What stands at a location after the value there is removed. */
  lemma AfterRemove(d: Doc, at: seq<string>)
    requires at != [] && Get(d, at).Some?
    ensures Remove(d, at).Some? && Get(Remove(d, at).value, at) == Successor(d, at)
  {
    hide Get, Set, Child, RemoveChild, Index;
    SplitLast(d, at);
    var p := Get(d, Init(at)).value;
    RemovesExactlyChildren(p, Last(at));
    var p' := RemoveChild(p, Last(at)).value;
    GetSet(d, Init(at), p');
    SplitLast(Set(d, Init(at), p'), at);
    ChildAfterRemove(p, Last(at));
  }

  lemma ChildAfterRemove(p: Doc, t: string)
    requires Child(p, t).Some?
    ensures RemoveChild(p, t).Some?
    ensures Child(RemoveChild(p, t).value, t) ==
      if p.DArray? && Index(t).Some? && Index(t).value + 1 < |p.items| then Some(p.items[Index(t).value + 1]) else None
  {
  }

  /** A value can be moved below itself exactly when the element that takes its place can hold it there. */
  lemma ShiftsExactly(d: Doc, from: seq<string>, ts: seq<string>)
    requires ProperPrefix(from, ts)
    ensures Shifts(d, from, ts) <==> Relocate(d, from, ts).Some?
  {
    hide Get, Set, Add, Remove, Successor;
    var us := ts[|from|..];
    assert from + us == ts;
    GotOrNot(d, from);
    if from == [] {
      NothingBelow(ts, d);
      NoSuccessor(d);
    } else if Get(d, from).Some? {
      AfterRemove(d, from);
      AddBelow(Remove(d, from).value, from, us, Get(d, from).value);
    }
  }

  lemma NoSuccessor(d: Doc)
    ensures Successor(d, []) == None
  {
  }

  /** A move into a child of the moved value, which RFC 6902 forbids and apply_patch may carry out. */
  predicate IntoItself(d: Doc, q: Request) {
    q.op.MOVE? && q.From().Some? && q.path != "" && Shifts(d, Tokens(q.From().value), Tokens(q.path))
  }

  /** The tree result succeeds exactly when the abstract one does, and then stands for it. */
  ghost predicate Implements(r: Outcome, s: Option<Doc>) {
    && (r.status == 0 <==> s.Some?)
    && (r.status == 0 ==> s == Some(Abs(r.doc)) && Distinct(r.doc))
  }

  lemma TestIsRfc(doc: Json, path: string, value: Json)
    requires Distinct(doc) && Distinct(value) && Regular(Abs(doc), Tokens(path))
    ensures Implements(ApplyTest(doc, path, Some(value)), Test(Abs(doc), Tokens(path), Abs(value)))
    ensures Abs(ApplyTest(doc, path, Some(value)).doc) == Abs(doc)
  {
    hide GetItem, PutItem, Regular, Tokens, CompareJson, Get, Set;
    GetItemIsGet(doc, path);
    if GetItem(doc, path).Some? {
      var item := GetItem(doc, path).value;
      GetItemDistinct(doc, path);
      CompareJsonDecidesEquality(item, value);
      PutItemIsSet(doc, path, CompareJson(item, value).a);
      SetGet(Abs(doc), Tokens(path));
    }
  }

  lemma ReplaceIsRfc(doc: Json, path: string, value: Json)
    requires Distinct(doc) && Distinct(value) && PlainPath(path) && path != "" && Regular(Abs(doc), Tokens(path))
    ensures Implements(ApplyReplace(doc, path, Some(value)), Replace(Abs(doc), Tokens(path), Abs(value)))
  {
    SplitPath(path);
    DetachPathIsRemove(doc, path);
    ReplaceIsRemoveThenAdd(Abs(doc), Tokens(path), Abs(value));
    if DetachPath(doc, path).Some? {
      RegularAfterRemove(Abs(doc), Tokens(path));
      AttachPathIsAdd(DetachPath(doc, path).value.rest, path, value);
    }
  }

  lemma MoveIsRfc(doc: Json, from: string, path: string)
    requires Distinct(doc) && PlainPath(path) && path != "" && PlainPath(from) && Regular(Abs(doc), Tokens(from))
    requires var s := Remove(Abs(doc), Tokens(from)); s.Some? ==> Regular(s.value, Tokens(path))
    ensures Implements(ApplyMove(doc, from, path), Relocate(Abs(doc), Tokens(from), Tokens(path)))
    ensures Implements(ApplyMove(doc, from, path), Move(Abs(doc), Tokens(from), Tokens(path))) <==>
      !Shifts(Abs(doc), Tokens(from), Tokens(path))
  {
    hide DetachPath, AttachPath, Regular, Tokens, Get, Remove, Add, Abs, Distinct, Plain, Shifts;
    NoTokens();
    ShiftsBelow(Abs(doc), Tokens(from), Tokens(path));
    if ProperPrefix(Tokens(from), Tokens(path)) { ShiftsExactly(Abs(doc), Tokens(from), Tokens(path)); }
    if from != "" {
      DetachPathIsRemove(doc, from);
      GotOrNot(Abs(doc), Tokens(from));
      var o := DetachPath(doc, from);
      if o.Some? { AttachPathIsAdd(o.value.rest, path, o.value.item); }
    } else {
      SplitPath(path);
      DetachNothing(doc);
      NothingBelow(Tokens(path), Abs(doc));
    }
  }

  lemma ShiftsBelow(d: Doc, from: seq<string>, ts: seq<string>)
    ensures Shifts(d, from, ts) ==> ProperPrefix(from, ts)
  {
  }

  lemma DetachNothing(doc: Json)
    ensures DetachPath(doc, "") == None
  {
  }

  /** A location can be removed exactly when there is a value. */
  lemma GotOrNot(d: Doc, ts: seq<string>)
    ensures Remove(d, ts).Some? <==> Get(d, ts).Some?
  {
    hide Get, Set, Child, RemoveChild;
    if ts == [] {
      GetRoot(d);
    } else {
      SplitLast(d, ts);
      if Get(d, Init(ts)).Some? { RemovesExactlyChildren(Get(d, Init(ts)).value, Last(ts)); }
    }
  }

  lemma GetRoot(d: Doc)
    ensures Get(d, []) == Some(d)
  {
  }

  /** Without the whole document there is nothing left to add it to. */
  lemma NothingBelow(ts: seq<string>, d: Doc)
    requires ts != []
    ensures Relocate(d, [], ts) == None
  {
    if |ts| > 1 { assert Child(DInvalid, Init(ts)[0]) == None; }
  }

  lemma CopyIsRfc(doc: Json, from: string, path: string)
    requires Distinct(doc) && PlainPath(path) && path != "" && Regular(Abs(doc), Tokens(path))
    requires Regular(Abs(doc), Tokens(from))
    ensures Implements(ApplyCopy(doc, from, path), Copy(Abs(doc), Tokens(from), Tokens(path)))
  {
    GetItemIsGet(doc, from);
    if GetItem(doc, from).Some? {
      GetItemDistinct(doc, from);
      AttachPathIsAdd(doc, path, GetItem(doc, from).value);
    }
  }

  lemma RemoveIsRfc(doc: Json, path: string)
    requires Distinct(doc) && PlainPath(path) && path != "" && Regular(Abs(doc), Tokens(path))
    ensures Implements(ApplyRemove(doc, path), Remove(Abs(doc), Tokens(path)))
  {
    DetachPathIsRemove(doc, path);
  }

  /**
   * For every request but two kinds apply_patch returns 0 exactly when the operation of RFC 6902
   * succeeds, and then it has done that operation. The two kinds are moves and copies onto the root,
   * and moves of an array element into the element that takes its place.
   */
  lemma ApplyIsRfc(doc: Json, q: Request)
    requires Distinct(doc) && (q.value.Some? ==> Distinct(q.value.value))
    requires !q.op.INVALID? && Readable(Abs(doc), q)
    requires q.op.MOVE? && q.from.Some? ==> q.from.value.String?
    ensures Implements(Apply(doc, q), Operation(Abs(doc), q)) <==> !OntoRoot(Abs(doc), q) && !IntoItself(Abs(doc), q)
  {
    hide Abs, Distinct, Tokens, Regular, PlainPath, Get, Set, Add, Remove, Replace, Relocate, Shifts, Move, Copy, Test,
      ApplyTest, ApplyRemove, ApplyReplace, ApplyMove, ApplyCopy, AttachPath;
    if q.path == "" && !q.op.TEST? {
      ApplyAtRootIsRfc(doc, q);
    } else if (q.op.ADD? || q.op.REPLACE? || q.op.TEST?) && q.value.None? {
      NoValueFails(doc, q);
    } else {
      match q.op
      case TEST => TestIsRfc(doc, q.path, q.value.value);
      case REMOVE => RemoveIsRfc(doc, q.path);
      case REPLACE => ReplaceIsRfc(doc, q.path, q.value.value);
      case ADD => AttachPathIsAdd(doc, q.path, q.value.value);
      case MOVE => if q.From().Some? { MoveIsRfc(doc, q.From().value, q.path); }
      case COPY => if q.From().Some? { CopyIsRfc(doc, q.From().value, q.path); }
    }
  }

  lemma NoValueFails(doc: Json, q: Request)
    requires (q.op.ADD? || q.op.REPLACE? || q.op.TEST?) && q.value.None?
    ensures Apply(doc, q).status != 0
  {
    hide DetachPath, AttachPath, GetItem, PutItem;
  }

  lemma ApplyAtRootIsRfc(doc: Json, q: Request)
    requires Distinct(doc) && (q.value.Some? ==> Distinct(q.value.value))
    requires !q.op.INVALID? && !q.op.TEST? && Readable(Abs(doc), q) && q.path == ""
    requires q.op.MOVE? && q.from.Some? ==> q.from.value.String?
    ensures Implements(Apply(doc, q), Operation(Abs(doc), q)) <==> !OntoRoot(Abs(doc), q)
  {
    hide Regular, PlainPath, Move, Copy;
    NoTokens();
    if (q.op.MOVE? || q.op.COPY?) && q.From().Some? { OntoRootFails(doc, q); }
  }

  lemma OntoRootFails(doc: Json, q: Request)
    requires Distinct(doc) && Readable(Abs(doc), q) && (q.op.MOVE? || q.op.COPY?) && q.From().Some? && q.path == ""
    ensures Apply(doc, q).status != 0
    ensures Operation(Abs(doc), q).Some? <==> OntoRoot(Abs(doc), q)
  {
    hide DetachPath, AttachPath, GetItem, Tokens, Get, Remove, Abs, Distinct, PlainPath, Regular;
    AttachNowhere(doc, q.From().value);
    NoTokens();
    GotOrNot(Abs(doc), Tokens(q.From().value));
  }

  lemma AttachNowhere(doc: Json, from: string)
    ensures ApplyMove(doc, from, "").status != 0 && ApplyCopy(doc, from, "").status != 0
  {
    hide DetachPath, GetItem;
  }

  // ----- a whole array of patches

  /** Section 5 of RFC 6902: the operations one after the other; the first error ends the application. */
  function Operations(d: Doc, patches: seq<Json>): Option<Doc>
    decreases |patches|
  {
    if patches == [] then Some(d)
    else
      var r := OperationOf(d, patches[0]);
      if r.None? then None else Operations(r.value, patches[1..])
  }

  predicate IsText(j: Option<Json>) { j.Some? && j.value.String? }

  /**
   * Section 4 of RFC 6902, read off the members of a patch object: its "op" names the operation. An
   * object without a path, with another operation, or without the operand that its operation needs is
   * in error.
   */
  function OperationOf(d: Doc, patch: Json): Option<Doc> {
    var op, path := GetObjectItem(patch, "op"), GetObjectItem(patch, "path");
    var from, value := GetObjectItem(patch, "from"), GetObjectItem(patch, "value");
    if !IsText(op) || !IsText(path) then None
    else
      var ts := Tokens(path.value.text);
      if op.value.text == "remove" then Remove(d, ts)
      else if op.value.text == "move" then if IsText(from) then Move(d, Tokens(from.value.text), ts) else None
      else if op.value.text == "copy" then if IsText(from) then Copy(d, Tokens(from.value.text), ts) else None
      else if value.None? then None
      else if op.value.text == "add" then Add(d, ts, Abs(value.value))
      else if op.value.text == "replace" then Replace(d, ts, Abs(value.value))
      else if op.value.text == "test" then Test(d, ts, Abs(value.value))
      else None
  }

  lemma OperationRead(d: Doc, patch: Json)
    ensures OperationOf(d, patch) == if StringField(patch, "path").None? then None else Operation(d, ReadRequest(patch))
  {
    hide Remove, Move, Copy, Add, Replace, Test, Tokens, GetObjectItem, Abs;
  }

  /** The patches for which apply_patch promises RFC 6902 on d. */
  ghost predicate Readables(d: Doc, patch: Json) {
    StringField(patch, "path").Some? && !DecodeOperation(patch).INVALID? ==>
      var q := ReadRequest(patch);
      && (q.value.Some? ==> Distinct(q.value.value)) && (q.op.MOVE? && q.from.Some? ==> q.from.value.String?)
      && Readable(d, q)
  }

  /** Each patch that the operations before it lead to is such a patch. */
  ghost predicate AllReadable(d: Doc, patches: seq<Json>)
    decreases |patches|
  {
    patches != [] ==>
      && Readables(d, patches[0])
      && (OperationOf(d, patches[0]).Some? ==> AllReadable(OperationOf(d, patches[0]).value, patches[1..]))
  }

  /** One of the patches that apply_patch does not carry out as the RFC says. */
  predicate Deviates(d: Doc, patch: Json) {
    && StringField(patch, "path").Some?
    && (OntoRoot(d, ReadRequest(patch)) || IntoItself(d, ReadRequest(patch)))
  }

  /** None of the patches that the operations before it lead to is one of those. */
  predicate NoneDeviates(d: Doc, patches: seq<Json>)
    decreases |patches|
  {
    patches != [] ==>
      && !Deviates(d, patches[0])
      && (OperationOf(d, patches[0]).Some? ==> NoneDeviates(OperationOf(d, patches[0]).value, patches[1..]))
  }

  lemma ApplyPatchIsRfc(doc: Json, patch: Json)
    requires Distinct(doc) && Readables(Abs(doc), patch)
    ensures Implements(ApplyPatch(doc, patch), OperationOf(Abs(doc), patch)) <==> !Deviates(Abs(doc), patch)
  {
    hide Abs, Distinct, Readable, Apply, IntoItself, OntoRoot, OperationOf;
    OperationRead(Abs(doc), patch);
    if StringField(patch, "path").Some? {
      if DecodeOperation(patch).INVALID? {
        InvalidDoesNotDeviate(Abs(doc), ReadRequest(patch));
      } else {
        ApplyPatchReads(doc, patch);
        ApplyIsRfc(doc, ReadRequest(patch));
      }
    }
  }

  lemma InvalidDoesNotDeviate(d: Doc, q: Request)
    requires q.op.INVALID?
    ensures !OntoRoot(d, q) && !IntoItself(d, q)
  {
  }

  /** One step of the application, with the first n patches. */
  lemma ApplyPatchesStep(doc: Json, patches: seq<Json>, n: nat)
    requires n < |patches|
    ensures ApplyPatches(doc, patches[..n + 1]) ==
      var r := ApplyPatch(doc, patches[0]); if r.status != 0 then r else ApplyPatches(r.doc, patches[1..][..n])
  {
    hide ApplyPatch;
    assert patches[..n + 1][1..] == patches[1..][..n];
  }

  lemma OperationsStep(d: Doc, patches: seq<Json>, n: nat)
    requires n < |patches|
    ensures Operations(d, patches[..n + 1]) ==
      var r := OperationOf(d, patches[0]); if r.None? then None else Operations(r.value, patches[1..][..n])
  {
    hide OperationOf;
    assert patches[..n + 1][1..] == patches[1..][..n];
  }

  /** The first n patches do to the tree what the RFC says they do to its document. */
  ghost predicate ImplementsFirst(doc: Json, patches: seq<Json>, n: nat)
    requires n <= |patches|
  {
    Implements(ApplyPatches(doc, patches[..n]), Operations(Abs(doc), patches[..n]))
  }

  /** Every front part of the patches does so. */
  ghost predicate ImplementsEachFirst(doc: Json, patches: seq<Json>) {
    forall n :: 0 <= n <= |patches| ==> ImplementsFirst(doc, patches, n)
  }

  lemma ImplementsStep(doc: Json, patches: seq<Json>, n: nat)
    requires n < |patches|
    requires Implements(ApplyPatch(doc, patches[0]), OperationOf(Abs(doc), patches[0]))
    ensures ImplementsFirst(doc, patches, n + 1) <==>
      (ApplyPatch(doc, patches[0]).status == 0 ==> ImplementsFirst(ApplyPatch(doc, patches[0]).doc, patches[1..], n))
  {
    hide ApplyPatch, OperationOf, ApplyPatches, Operations, Abs, Distinct;
    ApplyPatchesStep(doc, patches, n);
    OperationsStep(Abs(doc), patches, n);
  }

  lemma ImplementsOne(doc: Json, patches: seq<Json>)
    requires patches != []
    ensures ImplementsFirst(doc, patches, 1) <==>
      Implements(ApplyPatch(doc, patches[0]), OperationOf(Abs(doc), patches[0]))
  {
    hide ApplyPatch, OperationOf, ApplyPatches, Operations, Abs, Distinct;
    ApplyPatchesStep(doc, patches, 0);
    OperationsStep(Abs(doc), patches, 0);
    NoPatches(ApplyPatch(doc, patches[0]).doc, patches[1..][..0]);
    if OperationOf(Abs(doc), patches[0]).Some? {
      NoOperations(OperationOf(Abs(doc), patches[0]).value, patches[1..][..0]);
    }
  }

  lemma NoPatches(doc: Json, none: seq<Json>)
    requires none == []
    ensures ApplyPatches(doc, none) == Outcome(doc, 0)
  {
  }

  lemma NoOperations(d: Doc, none: seq<Json>)
    requires none == []
    ensures Operations(d, none) == Some(d)
  {
  }

  lemma ImplementsEachStep(doc: Json, patches: seq<Json>)
    requires patches != [] && Distinct(doc)
    requires Implements(ApplyPatch(doc, patches[0]), OperationOf(Abs(doc), patches[0]))
    ensures ImplementsEachFirst(doc, patches) <==>
      (ApplyPatch(doc, patches[0]).status == 0 ==>
         ImplementsEachFirst(ApplyPatch(doc, patches[0]).doc, patches[1..]))
  {
    hide ApplyPatch, OperationOf, ImplementsFirst, Implements, Abs, Distinct;
    var r := ApplyPatch(doc, patches[0]);
    forall n | 0 <= n < |patches|
      ensures ImplementsFirst(doc, patches, n + 1) <==> (r.status == 0 ==> ImplementsFirst(r.doc, patches[1..], n))
    {
      ImplementsStep(doc, patches, n);
    }
    NoneApplied(doc, patches);
    if r.status == 0 ==> ImplementsEachFirst(r.doc, patches[1..]) {
      forall n | 0 <= n <= |patches| ensures ImplementsFirst(doc, patches, n) {
        if n > 0 { ImplementsStep(doc, patches, n - 1); }
      }
    } else {
      var n :| 0 <= n < |patches| && !ImplementsFirst(r.doc, patches[1..], n);
      assert !ImplementsFirst(doc, patches, n + 1);
    }
  }

  lemma NoneApplied(doc: Json, patches: seq<Json>)
    requires Distinct(doc)
    ensures ImplementsFirst(doc, patches, 0)
  {
    NoPatches(doc, patches[..0]);
    NoOperations(Abs(doc), patches[..0]);
  }

  /**
   * Every front part of an array of patches does to the tree what RFC 6902 says it does to the
   * document, and fails when the RFC says so, if and only if the operations lead to no patch of the
   * two kinds of ApplyIsRfc.
   */
  lemma {:induction false} ApplyPatchesIsRfc(doc: Json, patches: seq<Json>)
    requires Distinct(doc) && AllReadable(Abs(doc), patches)
    ensures ImplementsEachFirst(doc, patches) <==> NoneDeviates(Abs(doc), patches)
    decreases |patches|
  {
    hide ApplyPatch, OperationOf, ApplyPatches, Operations, Abs, Distinct, Readables, Deviates, ImplementsFirst;
    if patches == [] {
      NoneApplied(doc, patches);
    } else {
      ApplyPatchIsRfc(doc, patches[0]);
      ImplementsOne(doc, patches);
      if !Deviates(Abs(doc), patches[0]) {
        ImplementsEachStep(doc, patches);
        if ApplyPatch(doc, patches[0]).status == 0 {
          ApplyPatchesIsRfc(ApplyPatch(doc, patches[0]).doc, patches[1..]);
        }
      }
    }
  }

  // ----- what a status means

  /** The status of adding at ts: 9 for no parent to add to, 11 for no index, 10 for one past the end. */
  function AddStatus(d: Doc, ts: seq<string>): nat {
    if ts == [] then 9
    else
      var p := Get(d, Init(ts));
      if p.None? then 9
      else match p.value
        case DObject(_) => 0
        case DArray(items) =>
          if Last(ts) == "-" then 0
          else if Index(Last(ts)).None? then 11
          else if Index(Last(ts)).value > |items| then 10 else 0
        case _ => 9
  }

  function Removed(d: Doc, ts: seq<string>): Doc { if Remove(d, ts).Some? then Remove(d, ts).value else d }

  predicate Known(op: string) {
    op == "add" || op == "remove" || op == "replace" || op == "move" || op == "copy" || op == "test"
  }

  /** The status of a patch object, from its members and the document. */
  function StatusOf(d: Doc, patch: Json): nat {
    var op, path := GetObjectItem(patch, "op"), GetObjectItem(patch, "path");
    var from, value := GetObjectItem(patch, "from"), GetObjectItem(patch, "value");
    if !IsText(path) then 2
    else if !IsText(op) || !Known(op.value.text) then 3
    else
      var ts := Tokens(path.value.text);
      if op.value.text == "test" then if value.Some? && Get(d, ts) == Some(Abs(value.value)) then 0 else 1
      else if op.value.text == "remove" then if Get(d, ts).Some? then 0 else 13
      else if op.value.text == "replace" then if Get(d, ts).None? then 13 else if value.None? then 7 else 0
      else if op.value.text == "add" then
        if value.None? then 7 else if ts == [] then 0 else AddStatus(d, ts)
      else if from.None? then 4
      else if !IsText(from) then 5
      else
        var f := Tokens(from.value.text);
        if Get(d, f).None? || (op.value.text == "move" && f == []) then 5
        else AddStatus(if op.value.text == "move" then Removed(d, f) else d, ts)
  }

  lemma AttachChildStatus(parent: Json, t: string, v: Json)
    requires Plain(t) && (parent.Array? ==> RegularToken(t))
    ensures AttachChild(parent, DecodeInPlace(t), v).status ==
      match Abs(parent)
        case DObject(_) => 0
        case DArray(items) =>
          if t == "-" then 0 else if Index(t).None? then 11 else if Index(t).value > |items| then 10 else 0
        case _ => 9
  {
    hide Settles, Unescape, DecodeInPlace, Fold, Index, DecodeIndex, RegularToken, Token, Plain;
    PlainKey(t);
    if parent.Array? { PlainIndex(t); }
  }

  lemma AttachStatus(doc: Json, path: string, v: Json)
    requires Distinct(doc) && PlainPath(path) && path != "" && Regular(Abs(doc), Tokens(path))
    ensures AttachPath(doc, path, v).status == AddStatus(Abs(doc), Tokens(path))
  {
    hide GetItem, PutItem, AttachChild, Regular, Tokens, Plain, DecodeInPlace, Get, RegularToken, Index, Distinct;
    SplitPath(path);
    var i := LastSlash(path).value;
    var ts := Tokens(path);
    SplitLast(Abs(doc), ts);
    RegularAppend(Abs(doc), Init(ts), Last(ts));
    GetItemIsGet(doc, path[..i]);
    if GetItem(doc, path[..i]).Some? {
      AttachChildStatus(GetItem(doc, path[..i]).value, path[i + 1..], v);
    }
  }

  /** The members whose keys are not the name. */
  function Others(ms: seq<Member<Json>>, name: string): seq<Member<Json>> {
    if ms == [] then []
    else (if Fold(ms[0].key) == Fold(name) then [] else [ms[0]]) + Others(ms[1..], name)
  }

  /** A member that is added comes last, behind the others in their order, whether or not it was there. */
  lemma {:induction false} AddedComesLast(ms: seq<Member<Json>>, name: string, v: Json)
    requires DistinctKeys(ms)
    ensures AttachChild(Object(ms), name, v).doc == Object(Others(ms, name) + [Member(name, v)])
  {
    DeletedLeavesOthers(ms, name);
  }

  lemma {:induction false} DeletedLeavesOthers(ms: seq<Member<Json>>, name: string)
    requires DistinctKeys(ms)
    ensures DeleteKey(ms, name) == Others(ms, name)
  {
    hide Fold, Find, Without, DistinctKeys;
    if ms != [] {
      FindFirst(ms, name);
      OtherKeys(ms);
      var i := Find(ms[1..], name);
      WithoutFirst(ms, i);
      if Fold(ms[0].key) == Fold(name) {
        NoneDeleted(ms[1..], name);
      } else {
        DeletedLeavesOthers(ms[1..], name);
      }
    }
  }

  lemma WithoutFirst(ms: seq<Member<Json>>, i: nat)
    requires ms != []
    ensures Without(ms, 0) == ms[1..] == [] + ms[1..] && ms == [ms[0]] + ms[1..]
    ensures i < |ms| - 1 ==> Without(ms, i + 1) == [ms[0]] + Without(ms[1..], i)
  {
  }

  lemma FindFirst(ms: seq<Member<Json>>, name: string)
    requires ms != []
    ensures Find(ms, name) == if Fold(ms[0].key) == Fold(name) then 0 else 1 + Find(ms[1..], name)
  {
  }

  lemma OtherKeys(ms: seq<Member<Json>>)
    requires ms != [] && DistinctKeys(ms)
    ensures DistinctKeys(ms[1..]) && forall i :: 0 <= i < |ms| - 1 ==> Fold(ms[1..][i].key) != Fold(ms[0].key)
  {
    assert forall i :: 0 <= i < |ms| - 1 ==> ms[1..][i] == ms[i + 1];
  }

  lemma {:induction false} NoneDeleted(ms: seq<Member<Json>>, name: string)
    requires forall i :: 0 <= i < |ms| ==> Fold(ms[i].key) != Fold(name)
    ensures Others(ms, name) == ms
  {
    hide Fold;
    if ms != [] {
      NoneDeleted(ms[1..], name);
      assert ms == [ms[0]] + ms[1..];
    }
  }

  /** Every status that apply_patch returns, and what it says of the patch and the document. */
  lemma StatusMeans(doc: Json, patch: Json)
    requires Distinct(doc) && Readables(Abs(doc), patch)
    ensures ApplyPatch(doc, patch).status == StatusOf(Abs(doc), patch)
  {
    hide Abs, Distinct, Readable, Apply, StatusOf, Tokens;
    StatusRead(Abs(doc), patch);
    if StringField(patch, "path").Some? && !DecodeOperation(patch).INVALID? {
      ApplyPatchReads(doc, patch);
      ApplyStatus(doc, ReadRequest(patch));
    }
  }

  /** The same for a request. */
  function RequestStatus(d: Doc, q: Request): nat
    requires !q.op.INVALID?
  {
    var ts := Tokens(q.path);
    match q.op
    case TEST => if q.value.Some? && Get(d, ts) == Some(Abs(q.value.value)) then 0 else 1
    case REMOVE => if Get(d, ts).Some? then 0 else 13
    case REPLACE => if Get(d, ts).None? then 13 else if q.value.None? then 7 else 0
    case ADD => if q.value.None? then 7 else if ts == [] then 0 else AddStatus(d, ts)
    case MOVE => SourceStatus(d, q)
    case COPY => SourceStatus(d, q)
  }

  function SourceStatus(d: Doc, q: Request): nat {
    if q.from.None? then 4
    else if q.From().None? then 5
    else
      var f := Tokens(q.From().value);
      if Get(d, f).None? || (q.op.MOVE? && f == []) then 5
      else AddStatus(if q.op.MOVE? then Removed(d, f) else d, Tokens(q.path))
  }

  lemma OpcodeRead(patch: Json)
    ensures var op := GetObjectItem(patch, "op");
      && (DecodeOperation(patch).INVALID? <==> !IsText(op) || !Known(op.value.text))
      && (DecodeOperation(patch).ADD? <==> IsText(op) && op.value.text == "add")
      && (DecodeOperation(patch).REMOVE? <==> IsText(op) && op.value.text == "remove")
      && (DecodeOperation(patch).REPLACE? <==> IsText(op) && op.value.text == "replace")
      && (DecodeOperation(patch).MOVE? <==> IsText(op) && op.value.text == "move")
      && (DecodeOperation(patch).COPY? <==> IsText(op) && op.value.text == "copy")
      && (DecodeOperation(patch).TEST? <==> IsText(op) && op.value.text == "test")
  {
    hide GetObjectItem;
  }

  lemma StatusRead(d: Doc, patch: Json)
    ensures StatusOf(d, patch) ==
      if StringField(patch, "path").None? then 2
      else if DecodeOperation(patch).INVALID? then 3
      else RequestStatus(d, ReadRequest(patch))
  {
    hide Get, AddStatus, Remove, Removed, Tokens, GetObjectItem, Abs, DecodeOperation;
    OpcodeRead(patch);
  }

  lemma ApplyStatus(doc: Json, q: Request)
    requires Distinct(doc) && (q.value.Some? ==> Distinct(q.value.value))
    requires !q.op.INVALID? && Readable(Abs(doc), q)
    requires q.op.MOVE? && q.from.Some? ==> q.from.value.String?
    ensures Apply(doc, q).status == RequestStatus(Abs(doc), q)
  {
    hide Abs, Distinct, Tokens, Regular, PlainPath, Get, Set, Add, Remove, Replace, Test, AddStatus, Apply, RequestStatus;
    match q.op
    case TEST => TestStatus(doc, q);
    case REMOVE => RemoveStatus(doc, q);
    case REPLACE => ReplaceStatus(doc, q);
    case ADD => AddedStatus(doc, q);
    case MOVE => MoveStatus(doc, q);
    case COPY => CopyStatus(doc, q);
  }

  lemma TestStatus(doc: Json, q: Request)
    requires Distinct(doc) && (q.value.Some? ==> Distinct(q.value.value)) && q.op.TEST? && Readable(Abs(doc), q)
    ensures Apply(doc, q).status == RequestStatus(Abs(doc), q)
  {
    hide Abs, Distinct, Tokens, Regular, GetItem, PutItem, CompareJson, Get;
    if q.value.Some? { TestIsRfc(doc, q.path, q.value.value); }
  }

  lemma RemoveStatus(doc: Json, q: Request)
    requires Distinct(doc) && q.op.REMOVE? && Readable(Abs(doc), q)
    ensures Apply(doc, q).status == RequestStatus(Abs(doc), q)
  {
    hide Abs, Distinct, Tokens, Regular, DetachPath, Get, Remove, Plain;
    NoTokens();
    GotOrNot(Abs(doc), Tokens(q.path));
    if q.path != "" { RemoveIsRfc(doc, q.path); } else { GetRoot(Abs(doc)); }
  }

  lemma ReplaceStatus(doc: Json, q: Request)
    requires Distinct(doc) && (q.value.Some? ==> Distinct(q.value.value)) && q.op.REPLACE? && Readable(Abs(doc), q)
    ensures Apply(doc, q).status == RequestStatus(Abs(doc), q)
  {
    hide Abs, Distinct, Tokens, Regular, DetachPath, AttachPath, Get, Set, Remove, Plain;
    NoTokens();
    GotOrNot(Abs(doc), Tokens(q.path));
    if q.path == "" {
      GetRoot(Abs(doc));
    } else {
      DetachPathIsRemove(doc, q.path);
      if q.value.Some? { ReplaceIsRfc(doc, q.path, q.value.value); }
    }
  }

  lemma AddedStatus(doc: Json, q: Request)
    requires Distinct(doc) && q.op.ADD? && Readable(Abs(doc), q)
    ensures Apply(doc, q).status == RequestStatus(Abs(doc), q)
  {
    hide Abs, Distinct, Tokens, Regular, AttachPath, Get, Plain, AddStatus;
    NoTokens();
    if q.path != "" && q.value.Some? {
      SplitPath(q.path);
      AttachStatus(doc, q.path, q.value.value);
    }
  }

  lemma NoStatus(doc: Json, v: Json, d: Doc)
    ensures AttachPath(doc, "", v).status == 9 == AddStatus(d, [])
  {
  }

  lemma MoveStatus(doc: Json, q: Request)
    requires Distinct(doc) && q.op.MOVE? && (q.from.Some? ==> q.from.value.String?) && Readable(Abs(doc), q)
    ensures Apply(doc, q).status == RequestStatus(Abs(doc), q)
  {
    hide Abs, Distinct, Tokens, Regular, DetachPath, AttachPath, Get, Remove, Plain, AddStatus;
    NoTokens();
    if q.from.Some? {
      var from := q.From().value;
      GotOrNot(Abs(doc), Tokens(from));
      if from == "" {
        DetachNothing(doc);
      } else {
        SplitPath(from);
        DetachPathIsRemove(doc, from);
        if DetachPath(doc, from).Some? {
          var cut := DetachPath(doc, from).value;
          if q.path == "" { NoStatus(cut.rest, cut.item, Abs(cut.rest)); } else { AttachStatus(cut.rest, q.path, cut.item); }
        }
      }
    }
  }

  lemma CopyStatus(doc: Json, q: Request)
    requires Distinct(doc) && q.op.COPY? && Readable(Abs(doc), q)
    ensures Apply(doc, q).status == RequestStatus(Abs(doc), q)
  {
    hide Abs, Distinct, Tokens, Regular, GetItem, AttachPath, Get, Plain, AddStatus;
    NoTokens();
    if q.From().Some? {
      var from := q.From().value;
      GetItemIsGet(doc, from);
      if GetItem(doc, from).Some? {
        var item := GetItem(doc, from).value;
        if q.path == "" { NoStatus(doc, item, Abs(doc)); } else { AttachStatus(doc, q.path, item); }
      }
    }
  }

  lemma AttachKinds(doc: Json, path: string, v: Json)
    ensures var r := AttachPath(doc, path, v); r.status in {0, 9, 10, 11} && (r.status != 0 ==> r.doc == doc)
  {
    hide GetItem, PutItem, DecodeInPlace, DecodeIndex, Token, DeleteKey;
  }

  /** The document behind a failure: a move or a replace may have taken its item out already. */
  function Remains(d: Doc, q: Request, status: nat): Option<Doc> {
    if q.op.MOVE? && q.From().Some? && status in {9, 10, 11} then Remove(d, Tokens(q.From().value))
    else if q.op.REPLACE? && status == 7 && q.path != "" then Remove(d, Tokens(q.path))
    else Some(d)
  }

  lemma FailureLeaves(doc: Json, q: Request)
    requires Distinct(doc) && (q.value.Some? ==> Distinct(q.value.value))
    requires !q.op.INVALID? && Readable(Abs(doc), q) && Apply(doc, q).status != 0
    ensures Some(Abs(Apply(doc, q).doc)) == Remains(Abs(doc), q, Apply(doc, q).status)
  {
    match q.op
    case TEST =>
      if q.value.Some? { TestIsRfc(doc, q.path, q.value.value); }
    case MOVE => FailedMove(doc, q);
    case REPLACE => FailedReplace(doc, q);
    case _ => FailedOther(doc, q);
  }

  lemma FailedOther(doc: Json, q: Request)
    requires (q.op.ADD? || q.op.REMOVE? || q.op.COPY?) && Apply(doc, q).status != 0
    ensures Apply(doc, q).doc == doc
  {
    hide AttachPath, DetachPath, GetItem;
    if q.value.Some? { AttachKinds(doc, q.path, q.value.value); }
    if q.From().Some? && GetItem(doc, q.From().value).Some? { AttachKinds(doc, q.path, GetItem(doc, q.From().value).value); }
  }

  lemma FailedMove(doc: Json, q: Request)
    requires Distinct(doc) && q.op.MOVE? && Readable(Abs(doc), q) && Apply(doc, q).status != 0
    ensures Some(Abs(Apply(doc, q).doc)) == Remains(Abs(doc), q, Apply(doc, q).status)
  {
    hide Abs, Distinct, Tokens, Regular, DetachPath, AttachPath, Get, Remove, Plain;
    if q.From().Some? {
      var from := q.From().value;
      if from == "" { DetachNothing(doc); } else { DetachPathIsRemove(doc, from); }
      if DetachPath(doc, from).Some? {
        var cut := DetachPath(doc, from).value;
        AttachKinds(cut.rest, q.path, cut.item);
      }
    }
  }

  lemma FailedReplace(doc: Json, q: Request)
    requires Distinct(doc) && (q.value.Some? ==> Distinct(q.value.value)) && q.op.REPLACE? && Readable(Abs(doc), q)
    requires Apply(doc, q).status != 0
    ensures Some(Abs(Apply(doc, q).doc)) == Remains(Abs(doc), q, Apply(doc, q).status)
  {
    hide Abs, Distinct, Tokens, Regular, DetachPath, AttachPath, Get, Set, Remove, Plain;
    if q.path != "" {
      GotOrNot(Abs(doc), Tokens(q.path));
      DetachPathIsRemove(doc, q.path);
      if q.value.Some? { ReplaceIsRfc(doc, q.path, q.value.value); }
    }
  }

  // ----- paths that are no pointers: RFC 6902 refuses them

  /**
   * A request at a path that does not start with a slash is carried out at what follows the last
   * slash of that path, in the root, and fails exactly when there is no slash or when it fails there.
   * A test at such a path looks at the root.
   */
  lemma StrayPath(doc: Json, q: Request)
    requires !q.op.INVALID? && !IsPointer(q.path)
    ensures q.op.TEST? ==> Apply(doc, q) == Apply(doc, q.(path := ""))
    ensures !q.op.TEST? && '/' !in q.path ==> Apply(doc, q).status != 0
    ensures !q.op.TEST? && '/' in q.path ==>
      LastSlash(q.path).Some? && Apply(doc, q) == Apply(doc, q.(path := q.path[LastSlash(q.path).value..]))
  {
    hide DetachPath, AttachPath, GetItem, PutItem, LastSlash;
    RootParent(doc, q.path);
    if '/' in q.path { FromLastSlash(q.path); }
    match q.op
    case REMOVE => StrayPlace(doc, q.path, Invalid);
    case REPLACE =>
      StrayPlace(doc, q.path, Invalid);
      if DetachPath(doc, q.path).Some? && q.value.Some? {
        StrayPlace(DetachPath(doc, q.path).value.rest, q.path, q.value.value);
      }
    case ADD => if q.value.Some? { StrayPlace(doc, q.path, q.value.value); }
    case MOVE =>
      if q.From().Some? && DetachPath(doc, q.From().value).Some? {
        var cut := DetachPath(doc, q.From().value).value;
        StrayPlace(cut.rest, q.path, cut.item);
      }
    case COPY =>
      if q.From().Some? && GetItem(doc, q.From().value).Some? {
        StrayPlace(doc, q.path, GetItem(doc, q.From().value).value);
      }
    case TEST =>
  }

  lemma FromLastSlash(p: string)
    requires '/' in p
    ensures LastSlash(p).Some?
    ensures var rest := p[LastSlash(p).value..];
      rest[0] == '/' && LastSlash(rest) == Some(0) && rest[..0] == "" && rest[1..] == p[LastSlash(p).value + 1..]
  {
    var i := LastSlash(p).value;
    var rest := p[i..];
    assert rest[0] == '/' && rest[1..] == p[i + 1..];
  }

  lemma StrayPlace(doc: Json, p: string, v: Json)
    requires !IsPointer(p)
    ensures '/' !in p ==> DetachPath(doc, p) == None && AttachPath(doc, p, v).status != 0
    ensures '/' in p ==>
      && LastSlash(p).Some?
      && DetachPath(doc, p) == DetachPath(doc, p[LastSlash(p).value..])
      && AttachPath(doc, p, v) == AttachPath(doc, p[LastSlash(p).value..], v)
  {
    hide DetachChild, AttachChild, DecodeInPlace, GetItem, PutItem, LastSlash;
    if '/' in p {
      FromLastSlash(p);
      var i := LastSlash(p).value;
      assert p[..i] == "" || p[..i][0] == p[0];
      RootParent(doc, p[..i]);
    }
  }

  lemma RootParent(doc: Json, up: string)
    requires up == "" || !IsPointer(up)
    ensures GetItem(doc, up) == Some(doc) == GetItem(doc, "")
    ensures forall v :: PutItem(doc, up, v) == v == PutItem(doc, "", v)
  {
  }

  /** So the path "a/0" removes the first element of an array. */
  lemma StrayPathRemoves()
    ensures Apply(Array([True, False]), Request(REMOVE, "a/0", None, None)) == Outcome(Array([False]), 0)
    ensures !IsPointer("a/0")
  {
    hide DetachPath;
    var q := Request(REMOVE, "a/0", None, None);
    StrayPath(Array([True, False]), q);
    DetachFirst(True, False);
    assert "a/0"[..2] == "a/" && LastSlash("a/") == Some(1) && "a/0"[1..] == "/0";
  }

  /** What the code reads in the token "0" and in the paths "/0" and "/0/0". */
  lemma ZeroToken()
    ensures Token("0") == "0" && Rest("0") == "" && DecodeInPlace("0") == "0" && DecodeIndex("0") == Some(0)
  {
    TokenOfConcat("0", "");
    assert "0" + "" == "0";
    CleanIsPlain("0");
    PlainKey("0");
    assert "0"[..0] == "" && Accumulate("") == 0 && Accumulate("0") == 0;
  }

  lemma ZeroPaths()
    ensures LastSlash("/0") == Some(0) && LastSlash("/0/0") == Some(2)
    ensures Tokens("/0") == ["0"] && Tokens("/0/0") == ["0", "0"]
  {
    hide Tokens;
    assert "/0"[..1] == "/" && LastSlash("/") == Some(0);
    assert "/0/0"[..3] == "/0/" && LastSlash("/0/") == Some(2);
    NoTokens();
    assert "/0" == "/" + ("0" + "") && "/0/0" == "/" + ("0" + "/0");
    TokensStep("0", "");
    TokensStep("0", "/0");
  }

  lemma DetachFirst(x: Json, y: Json)
    ensures DetachPath(Array([x, y]), "/0") == Some(Detached(Array([y]), x))
  {
    ZeroToken();
    ZeroPaths();
    hide Token, Tokens, DecodeIndex, DecodeInPlace, LastSlash;
    assert "/0"[..0] == "" && "/0"[1..] == "0";
    assert Without([x, y], 0) == [y];
  }

  lemma AttachInFirst(x: Json, v: Json)
    ensures AttachPath(Array([Array([x])]), "/0/0", v) == Outcome(Array([Array([v, x])]), 0)
  {
    ZeroToken();
    ZeroPaths();
    hide Token, Rest, Tokens, DecodeIndex, DecodeInPlace, LastSlash;
    assert "/0/0"[..2] == "/0" && "/0/0"[3..] == "0" && "/0"[1..] == "0";
    assert GetItem(Array([x]), "") == Some(Array([x]));
    assert Step(Array([Array([x])]), "0") == Some(Array([x]));
    assert GetItem(Array([Array([x])]), "/0") == Some(Array([x]));
    assert InsertItem([x], 0, v) == [v, x];
    assert PutItem(Array([Array([x])]), "/0", Array([v, x])) == Array([Array([x])][0 := Array([v, x])]);
  }

  /** The move that the RFC forbids: [[true], [false]] from "/0" to "/0/0" becomes [[[true], false]]. */
  lemma MoveIntoItself()
    ensures var doc := Array([Array([True]), Array([False])]);
      var q := Request(MOVE, "/0/0", Some(String("/0")), None);
      && Apply(doc, q) == Outcome(Array([Array([Array([True]), False])]), 0)
      && Operation(Abs(doc), q) == None
  {
    hide DetachPath, AttachPath, Tokens, Relocate;
    DetachFirst(Array([True]), Array([False]));
    AttachInFirst(False, Array([True]));
    ZeroPaths();
    assert ["0"] == ["0", "0"][..1];
  }
}
