// create_patches: the JSON Patch that leads from one document to another, and the proof that
// apply_patch, run on a copy of the first, arrives at the second.
module Diffing {
  import opened Texts
  import opened Documents
  import opened Sorting
  import opened Comparing
  import opened Pointers
  import opened Patching

  /** The path of a patch: a key or index below path, or path itself. */
  function FullPath(path: string, suffix: Option<string>, stale: char): string {
    match suffix
    case None => path
    case Some(s) => path + "/" + Encode(s, stale)
  }

  /** compose_patch. */
  function Compose(op: string, full: string, value: Option<Json>): Json {
    var fields := [Member("op", String(op)), Member("path", String(full))];
    Object(if value.Some? then fields + [Member("value", value.value)] else fields)
  }

  function CreatePatches(path: string, from: Json, to: Json, stale: char): seq<Json>
    decreases Height(from), 1, 0
  {
    if !SameType(from, to) then [Compose("replace", path, Some(to))]
    else match from
      case Number(i, d) =>
        if i != to.valueint || d != to.valuedouble then [Compose("replace", path, Some(to))] else []
      case String(s) => if s != to.text then [Compose("replace", path, Some(to))] else []
      case Array(items) => ArrayPatches(path, items, to.items, 0, stale)
      case Object(ms) =>
        SortedBelow(ms);
        ObjectPatches(path, MergeSort(ms, false), MergeSort(to.members, false), stale, Height(from))
      case _ => []
  }

  /**
   * The walk over two arrays, at index i: pairs first, then every leftover of the first array is
   * removed at the same index, or every leftover of the second is appended.
   */
  function ArrayPatches(path: string, fs: seq<Json>, ts: seq<Json>, i: nat, stale: char): seq<Json>
    decreases Height(Array(fs)), 0, |fs| + |ts|
  {
    if fs != [] && ts != [] then
      ItemIsLower(fs, 0);
      CreatePatches(path + "/" + Decimal(i), fs[0], ts[0], stale) + ArrayPatches(path, fs[1..], ts[1..], i + 1, stale)
    else if fs != [] then
      assert HeightOfItems(fs[1..]) <= HeightOfItems(fs);
      [Compose("remove", FullPath(path, Some(Decimal(i)), stale), None)] + ArrayPatches(path, fs[1..], ts, i, stale)
    else if ts != [] then
      [Compose("add", FullPath(path, Some("-"), stale), Some(ts[0]))] + ArrayPatches(path, fs, ts[1..], i + 1, stale)
    else []
  }

  /** The walk over two sorted member lists. */
  function ObjectPatches(path: string, fs: seq<Member<Json>>, ts: seq<Member<Json>>, stale: char, ghost h: nat): seq<Json>
    requires MembersBelow(fs, h)
    decreases h, 0, |fs| + |ts|
  {
    if fs == [] && ts == [] then []
    else if ts == [] || (fs != [] && Less(Fold(fs[0].key), Fold(ts[0].key))) then
      [Compose("remove", FullPath(path, Some(fs[0].key), stale), None)] + ObjectPatches(path, fs[1..], ts, stale, h)
    else if fs == [] || Fold(fs[0].key) != Fold(ts[0].key) then
      [Compose("add", FullPath(path, Some(ts[0].key), stale), Some(ts[0].value))]
      + ObjectPatches(path, fs, ts[1..], stale, h)
    else
      CreatePatches(FullPath(path, Some(fs[0].key), stale), fs[0].value, ts[0].value, stale)
      + ObjectPatches(path, fs[1..], ts[1..], stale, h)
  }

  // ----- the domain of the round trip

  /** No key of the tree contains '~' or '/'. */
  predicate CleanKeys(j: Json) {
    match j
    case Array(items) => forall i :: 0 <= i < |items| ==> CleanKeys(items[i])
    case Object(ms) => CleanMembers(ms)
    case _ => true
  }

  predicate CleanMembers(ms: seq<Member<Json>>) {
    forall i :: 0 <= i < |ms| ==> Clean(ms[i].key) && CleanKeys(ms[i].value)
  }

  // ----- applying what compose_patch wrote

  lemma ComposedRequest(op: string, full: string, value: Option<Json>)
    ensures var p := Compose(op, full, value);
      && StringField(p, "path") == Some(full)
      && StringField(p, "op") == Some(op)
      && ReadRequest(p).path == full && ReadRequest(p).from == None && ReadRequest(p).value == value
  {
    var ms := Compose(op, full, value).members;
    assert Fold("path")[0] == 'p' && Fold("from")[0] == 'f';
    assert |Fold("op")| == 2 && |Fold("path")| == 4 && |Fold("value")| == 5;
    assert ms[0].key == "op" && ms[1].key == "path" && (value.Some? ==> ms[2].key == "value");
    assert Find(ms, "op") == 0;
    assert Find(ms, "path") == 1;
    assert Find(ms, "from") == |ms|;
    assert Find(ms, "value") == 2;
  }

  /** A composed patch that RFC 6902 can carry out at this location is carried out. */
  lemma ApplyComposed(doc: Json, op: Opcode, full: string, value: Option<Json>)
    requires Distinct(doc) && (value.Some? ==> Distinct(value.value))
    requires op.ADD? || op.REMOVE? || op.REPLACE?
    requires PlainPath(full) && Regular(Abs(doc), Tokens(full))
    ensures var name := if op.ADD? then "add" else if op.REMOVE? then "remove" else "replace";
      Implements(ApplyPatch(doc, Compose(name, full, value)), Operation(Abs(doc), Request(op, full, None, value)))
  {
    var name := if op.ADD? then "add" else if op.REMOVE? then "remove" else "replace";
    var p := Compose(name, full, value);
    ComposedRequest(name, full, value);
    ComposedOpcode(name, full, value);
    hide ApplyPatch, Apply, Operation, Compose, Regular, StringField, DecodeOperation, Find;
    assert ReadRequest(p) == Request(op, full, None, value);
    ApplyPatchReads(doc, p);
    ApplyIsRfc(doc, ReadRequest(p));
  }

  lemma ComposedOpcode(op: string, full: string, value: Option<Json>)
    requires op in ["add", "remove", "replace"]
    ensures DecodeOperation(Compose(op, full, value)) == if op == "add" then ADD else if op == "remove" then REMOVE else REPLACE
  {
    ComposedRequest(op, full, value);
    hide Find, GetObjectItem, Compose, StringField;
    assert "add"[0] == 'a' && "remove"[2] == 'm' && "replace"[2] == 'p';
  }

  /** Neither a test nor a move. */
  predicate Edit(patch: Json) {
    var op := DecodeOperation(patch); op.ADD? || op.REMOVE? || op.REPLACE?
  }

  predicate Edits(patches: seq<Json>) { forall i :: 0 <= i < |patches| ==> Edit(patches[i]) }

  lemma ComposedEdit(op: string, full: string, value: Option<Json>)
    requires op in ["add", "remove", "replace"]
    ensures Edits([Compose(op, full, value)])
  {
    hide DecodeOperation, Compose;
    ComposedOpcode(op, full, value);
  }

  lemma EditsNeverSort(patches: seq<Json>)
    requires Edits(patches)
    ensures TestsLast(patches) && forall i :: 0 <= i < |patches| ==> NamesSource(patches[i])
  {
    hide DecodeOperation, StringField;
  }

  lemma {:induction false} CreatedPatchesEdit(path: string, from: Json, to: Json, stale: char)
    ensures Edits(CreatePatches(path, from, to, stale))
    decreases Height(from), 1, 0
  {
    hide Edit, Compose, MergeSort;
    ComposedEdit("replace", path, Some(to));
    if SameType(from, to) && from.Array? {
      ArrayPatchesEdit(path, from.items, to.items, 0, stale);
    } else if SameType(from, to) && from.Object? {
      SortedBelow(from.members);
      ObjectPatchesEdit(path, MergeSort(from.members, false), MergeSort(to.members, false), stale, Height(from));
    }
  }

  lemma {:induction false} ArrayPatchesEdit(path: string, fs: seq<Json>, ts: seq<Json>, i: nat, stale: char)
    ensures Edits(ArrayPatches(path, fs, ts, i, stale))
    decreases Height(Array(fs)), 0, |fs| + |ts|
  {
    hide Edit, Compose, CreatePatches, FullPath;
    if fs != [] && ts != [] {
      ItemIsLower(fs, 0);
      CreatedPatchesEdit(path + "/" + Decimal(i), fs[0], ts[0], stale);
      ArrayPatchesEdit(path, fs[1..], ts[1..], i + 1, stale);
    } else if fs != [] {
      assert HeightOfItems(fs[1..]) <= HeightOfItems(fs);
      ComposedEdit("remove", FullPath(path, Some(Decimal(i)), stale), None);
      ArrayPatchesEdit(path, fs[1..], ts, i, stale);
    } else if ts != [] {
      ComposedEdit("add", FullPath(path, Some("-"), stale), Some(ts[0]));
      ArrayPatchesEdit(path, fs, ts[1..], i + 1, stale);
    }
  }

  lemma {:induction false} ObjectPatchesEdit(path: string, fs: seq<Member<Json>>, ts: seq<Member<Json>>, stale: char, h: nat)
    requires MembersBelow(fs, h)
    ensures Edits(ObjectPatches(path, fs, ts, stale, h))
    decreases h, 0, |fs| + |ts|
  {
    hide Edit, Compose, CreatePatches, FullPath, Less, Fold;
    if fs == [] && ts == [] {
    } else if ts == [] || (fs != [] && Less(Fold(fs[0].key), Fold(ts[0].key))) {
      ComposedEdit("remove", FullPath(path, Some(fs[0].key), stale), None);
      ObjectPatchesEdit(path, fs[1..], ts, stale, h);
    } else if fs == [] || Fold(fs[0].key) != Fold(ts[0].key) {
      ComposedEdit("add", FullPath(path, Some(ts[0].key), stale), Some(ts[0].value));
      ObjectPatchesEdit(path, fs, ts[1..], stale, h);
    } else {
      CreatedPatchesEdit(FullPath(path, Some(fs[0].key), stale), fs[0].value, ts[0].value, stale);
      ObjectPatchesEdit(path, fs[1..], ts[1..], stale, h);
    }
  }

  lemma {:induction false} ApplyConcat(doc: Json, ps: seq<Json>, qs: seq<Json>)
    requires ApplyPatches(doc, ps).status == 0
    ensures ApplyPatches(doc, ps + qs) == ApplyPatches(ApplyPatches(doc, ps).doc, qs)
    decreases |ps|
  {
    hide ApplyPatch;
    if ps == [] {
      assert ps + qs == qs;
    } else {
      assert (ps + qs)[0] == ps[0] && (ps + qs)[1..] == ps[1..] + qs;
      ApplyConcat(ApplyPatch(doc, ps[0]).doc, ps[1..], qs);
    }
  }

  lemma ApplyCons(doc: Json, p: Json, qs: seq<Json>)
    requires ApplyPatch(doc, p).status == 0
    ensures ApplyPatches(doc, [p] + qs) == ApplyPatches(ApplyPatch(doc, p).doc, qs)
  {
    assert ([p] + qs)[0] == p && ([p] + qs)[1..] == qs;
  }

  lemma {:induction false} SmallSet(d: Doc, ts: seq<string>, v: Doc)
    requires Small(d) && Small(v) && Get(d, ts).Some?
    ensures Small(Set(d, ts, v))
    decreases |ts|
  {
    if ts != [] { SmallSet(Child(d, ts[0]).value, ts[1..], v); }
  }

  // ----- the round trip

  /** A location the patches can name: a pointer without escapes that resolves to d in doc. */
  ghost predicate At(doc: Json, path: string, d: Doc) {
    && Distinct(doc) && Small(Abs(doc))
    && IsPointer(path) && '~' !in path
    && Get(Abs(doc), Tokens(path)) == Some(d)
  }

  /** The patches succeed, and all they change is the value at path, which becomes v. */
  ghost predicate Yields(doc: Json, path: string, patches: seq<Json>, v: Doc)
    requires Get(Abs(doc), Tokens(path)).Some?
  {
    var r := ApplyPatches(doc, patches);
    r.status == 0 && Distinct(r.doc) && Abs(r.doc) == Set(Abs(doc), Tokens(path), v)
  }

  lemma {:induction false} TokensPlain(p: string)
    requires '~' !in p
    ensures forall i :: 0 <= i < |Tokens(p)| ==> Clean(Tokens(p)[i])
    decreases |p|
  {
    if p != "" && p[0] == '/' {
      var q := p[1..];
      assert q == Token(q) + Rest(q);
      TokensPlain(Rest(q));
    }
  }

  lemma AtResolves(doc: Json, path: string, d: Doc)
    requires At(doc, path, d)
    ensures Distinct(doc) && Get(Abs(doc), Tokens(path)) == Some(d)
  {
  }

  lemma AtIsReadable(doc: Json, path: string, d: Doc)
    requires At(doc, path, d)
    ensures PlainPath(path) && Regular(Abs(doc), Tokens(path)) && Small(d)
  {
    TokensPlain(path);
    if Tokens(path) != [] { CleanIsPlain(Last(Tokens(path))); }
    ResolvedIsRegular(Abs(doc), Tokens(path));
  }

  /** The path of a child. */
  lemma ChildPath(doc: Json, path: string, d: Doc, t: string, stale: char)
    requires At(doc, path, d) && Clean(t)
    ensures FullPath(path, Some(t), stale) == path + "/" + t
    ensures var full := path + "/" + t;
      && IsPointer(full) && '~' !in full && Tokens(full) == Tokens(path) + [t] && PlainPath(full)
    ensures Get(Abs(doc), Tokens(path) + [t]) == Child(d, t)
    ensures (d.DArray? ==> RegularToken(t)) ==> Regular(Abs(doc), Tokens(path) + [t])
  {
    hide Tokens, Encode, Regular, Small, RegularToken, Plain;
    EncodeClean(t, stale);
    CleanIsPlain(t);
    TokensAppend(path, t);
    TokensPlain(path + "/" + t);
    AtIsReadable(doc, path, d);
    RegularAppend(Abs(doc), Tokens(path), t);
    GetAppend(Abs(doc), Tokens(path), [t]);
    if Child(d, t).Some? { assert Get(d, [t]) == Get(Child(d, t).value, []); }
  }

  /** Two changes at one location, one after the other. */
  lemma YieldsThen(doc: Json, path: string, ps: seq<Json>, v: Doc, qs: seq<Json>, w: Doc)
    requires Get(Abs(doc), Tokens(path)).Some? && Yields(doc, path, ps, v)
    requires var mid := ApplyPatches(doc, ps).doc;
      Get(Abs(mid), Tokens(path)).Some? && Yields(mid, path, qs, w)
    ensures Yields(doc, path, ps + qs, w)
  {
    ApplyConcat(doc, ps, qs);
    SetSet(Abs(doc), Tokens(path), v, w);
  }

  lemma AtAfter(doc: Json, path: string, d: Doc, ps: seq<Json>, v: Doc)
    requires At(doc, path, d) && Small(v) && Yields(doc, path, ps, v)
    ensures At(ApplyPatches(doc, ps).doc, path, v)
  {
    GetSet(Abs(doc), Tokens(path), v);
    SmallSet(Abs(doc), Tokens(path), v);
  }

  /** A change at a child is a change of the parent. */
  lemma YieldsAtChild(doc: Json, path: string, d: Doc, t: string, ps: seq<Json>, v: Doc)
    requires At(doc, path, d) && Clean(t) && Child(d, t).Some?
    requires Get(Abs(doc), Tokens(path + "/" + t)).Some? && Yields(doc, path + "/" + t, ps, v)
    ensures Yields(doc, path, ps, SetChild(d, t, v))
  {
    ChildPath(doc, path, d, t, 'x');
    SetAppend(Abs(doc), Tokens(path), [t], v);
    assert Set(d, [t], v) == SetChild(d, t, Set(Child(d, t).value, [], v));
  }

  /** One composed patch that adds a child to, or removes it from, the value at path. */
  lemma YieldsEdit(doc: Json, path: string, d: Doc, op: Opcode, t: string, value: Option<Json>, stale: char)
    requires At(doc, path, d) && Clean(t) && (d.DArray? ==> RegularToken(t))
    requires (op.ADD? && value.Some? && Distinct(value.value)) || (op.REMOVE? && value == None)
    requires var e := if op.ADD? then AddChild(d, t, Abs(value.value)) else RemoveChild(d, t); e.Some?
    ensures var e := if op.ADD? then AddChild(d, t, Abs(value.value)) else RemoveChild(d, t);
      var name := if op.ADD? then "add" else "remove";
      Yields(doc, path, [Compose(name, FullPath(path, Some(t), stale), value)], e.value)
  {
    hide ApplyPatch, Compose, FullPath, AddChild, RemoveChild, Regular, Tokens, RegularToken;
    ChildPath(doc, path, d, t, stale);
    var full := path + "/" + t;
    var ts := Tokens(path) + [t];
    assert Init(ts) == Tokens(path) && Last(ts) == t;
    ApplyComposed(doc, op, full, value);
    var p := Compose(if op.ADD? then "add" else "remove", full, value);
    assert ApplyPatches(ApplyPatch(doc, p).doc, []) == Outcome(ApplyPatch(doc, p).doc, 0);
    ApplyCons(doc, p, []);
    assert [p] + [] == [p];
  }

  lemma YieldsReplace(doc: Json, path: string, d: Doc, to: Json)
    requires At(doc, path, d) && Distinct(to)
    ensures Yields(doc, path, [Compose("replace", path, Some(to))], Abs(to))
  {
    hide Compose, ApplyPatch, At, Regular, PlainPath, Distinct;
    AtResolves(doc, path, d);
    AtIsReadable(doc, path, d);
    ApplyComposed(doc, REPLACE, path, Some(to));
    var p := Compose("replace", path, Some(to));
    ApplyCons(doc, p, []);
    assert [p] + [] == [p];
  }

  lemma YieldsNothing(doc: Json, path: string, d: Doc)
    requires At(doc, path, d)
    ensures Yields(doc, path, [], d)
  {
    SetGet(Abs(doc), Tokens(path));
  }

  /** Sorting both objects starts the walk over their members with nothing done. */
  lemma ObjectWalkStarts(doc: Json, path: string, fs: seq<Member<Json>>, ts: seq<Member<Json>>)
    requires At(doc, path, DObject(Fields(fs))) && Small(DObject(Fields(ts)))
    requires DistinctMembers(fs) && DistinctMembers(ts) && CleanMembers(fs) && CleanMembers(ts)
    ensures ObjectWalk(doc, path, MergeSort(fs, false), MergeSort(ts, false), map[])
    ensures Fields(MergeSort(ts, false)) + map[] == Fields(ts)
    ensures MembersBelow(MergeSort(fs, false), Height(Object(fs)))
  {
    hide MergeSort, Fold, Small, CleanMembers, Ascending, Tokens, Get;
    SortedBelow(fs);
    SortedMembers(fs);
    SortedMembers(ts);
    CleanSorted(fs);
    CleanSorted(ts);
    assert Fields(MergeSort(fs, false)) + map[] == Fields(fs);
    assert Fields(MergeSort(ts, false)) + map[] == Fields(ts);
  }

  lemma ArrayWalkStarts(doc: Json, path: string, fs: seq<Json>, ts: seq<Json>)
    requires At(doc, path, Abs(Array(fs))) && Small(Abs(Array(ts)))
    requires Distinct(Array(fs)) && Distinct(Array(ts)) && CleanKeys(Array(fs)) && CleanKeys(Array(ts))
    ensures ArrayWalk(doc, path, fs, ts, [])
    ensures Abs(Array(ts)) == Joined([], ts)
  {
    assert [] + Elements(fs) == Elements(fs) && [] + Elements(ts) == Elements(ts);
  }

  /**
   * Generating patches from one document to another and applying them where the first is found
   * (in any member order, anywhere in a larger document) puts the second in its place.
   */
  lemma {:induction false} PatchesArrive(doc: Json, path: string, from: Json, to: Json, stale: char)
    requires At(doc, path, Abs(from)) && Small(Abs(to))
    requires Distinct(from) && Distinct(to) && CleanKeys(from) && CleanKeys(to)
    ensures Yields(doc, path, CreatePatches(path, from, to, stale), Abs(to))
    decreases Height(from), 1, 0
  {
    if SameType(from, to) && from.Array? {
      ArrayWalkStarts(doc, path, from.items, to.items);
      ArrayPatchesArrive(doc, path, from.items, to.items, [], stale);
    } else if SameType(from, to) && from.Object? {
      ObjectWalkStarts(doc, path, from.members, to.members);
      ObjectPatchesArrive(doc, path, MergeSort(from.members, false), MergeSort(to.members, false), map[], stale, Height(from));
    } else {
      ScalarPatchesArrive(doc, path, from, to, stale);
    }
  }

  lemma ScalarPatchesArrive(doc: Json, path: string, from: Json, to: Json, stale: char)
    requires At(doc, path, Abs(from)) && Distinct(to)
    requires SameType(from, to) ==> !from.Array? && !from.Object?
    ensures Yields(doc, path, CreatePatches(path, from, to, stale), Abs(to))
  {
    hide CreatePatches, Yields, At, Compose, Abs, Distinct;
    ScalarPatches(path, from, to, stale);
    if Abs(from) == Abs(to) { YieldsNothing(doc, path, Abs(from)); }
    else { YieldsReplace(doc, path, Abs(from), to); }
  }

  lemma ScalarPatches(path: string, from: Json, to: Json, stale: char)
    requires SameType(from, to) ==> !from.Array? && !from.Object?
    ensures CreatePatches(path, from, to, stale) == if Abs(from) == Abs(to) then [] else [Compose("replace", path, Some(to))]
  {
    hide Compose;
  }

  lemma CleanSorted(ms: seq<Member<Json>>)
    requires CleanMembers(ms)
    ensures CleanMembers(MergeSort(ms, false))
  {
    var r := MergeSort(ms, false);
    forall i | 0 <= i < |r| ensures Clean(r[i].key) && CleanKeys(r[i].value) {
      assert r[i] in multiset(ms);
    }
  }

  lemma ElementsSplit(xs: seq<Json>)
    requires xs != []
    ensures Elements(xs) == [Abs(xs[0])] + Elements(xs[1..])
    ensures Distinct(Array(xs)) ==> Distinct(xs[0]) && Distinct(Array(xs[1..]))
    ensures CleanKeys(Array(xs)) ==> CleanKeys(xs[0]) && CleanKeys(Array(xs[1..]))
  {
    assert xs == [xs[0]] + xs[1..];
    ElementsCons(xs[0], xs[1..]);
    assert forall i :: 0 <= i < |xs| - 1 ==> xs[1..][i] == xs[i + 1];
  }

  /** The child of an array at index |done|: reading, changing and removing it. */
  lemma ArrayChild(done: seq<Doc>, x: Doc, rest: seq<Doc>, y: Doc)
    requires Small(DArray(done + ([x] + rest)))
    ensures var d, t := DArray(done + ([x] + rest)), Decimal(|done|);
      && RegularToken(t) && Clean(t)
      && Child(d, t) == Some(x)
      && SetChild(d, t, y) == DArray((done + [y]) + rest)
      && RemoveChild(d, t) == Some(DArray(done + rest))
  {
    var items, i := done + ([x] + rest), |done|;
    DecimalIsIndex(i);
    DecimalIsRegular(i);
    Middle(done, x, rest, y);
    hide Index, Decimal, RegularToken, Small;
  }

  lemma Middle<T>(done: seq<T>, x: T, rest: seq<T>, y: T)
    ensures var items := done + ([x] + rest);
      items[|done|] == x && items[|done| := y] == (done + [y]) + rest && Without(items, |done|) == done + rest
  {
  }

  lemma DecimalIsRegular(n: nat)
    requires n < SIZE_LIMIT
    ensures RegularToken(Decimal(n))
  {
    DecimalIsIndex(n);
  }

  lemma SmallChild(done: seq<Doc>, x: Doc, rest: seq<Doc>)
    requires Small(DArray(done + ([x] + rest)))
    ensures Small(x) && Small(DArray(done + rest)) && Small(DArray(done + [x]))
    ensures forall y :: Small(y) ==> Small(DArray((done + [y]) + rest))
  {
    var items := done + ([x] + rest);
    assert items[|done|] == x;
    var a, b := done + rest, done + [x];
    assert forall i :: 0 <= i < |a| ==> a[i] == items[if i < |done| then i else i + 1];
    assert forall i :: 0 <= i < |b| ==> b[i] == items[i];
    forall y | Small(y) ensures Small(DArray((done + [y]) + rest)) {
      var c := (done + [y]) + rest;
      assert forall i :: 0 <= i < |c| ==> c[i] == if i == |done| then y else items[i];
    }
  }

  /** The array of what is done and what is left. */
  function Joined(done: seq<Doc>, xs: seq<Json>): Doc { DArray(done + Elements(xs)) }

  ghost predicate ArrayWalk(doc: Json, path: string, fs: seq<Json>, ts: seq<Json>, done: seq<Doc>) {
    && At(doc, path, Joined(done, fs)) && Small(Joined(done, ts))
    && Distinct(Array(fs)) && Distinct(Array(ts)) && CleanKeys(Array(fs)) && CleanKeys(Array(ts))
  }

  lemma ArrayWalkAt(doc: Json, path: string, fs: seq<Json>, ts: seq<Json>, done: seq<Doc>)
    requires ArrayWalk(doc, path, fs, ts, done)
    ensures At(doc, path, Joined(done, fs))
  {
  }

  lemma ArrayWalkResolves(doc: Json, path: string, fs: seq<Json>, ts: seq<Json>, done: seq<Doc>)
    requires ArrayWalk(doc, path, fs, ts, done)
    ensures Get(Abs(doc), Tokens(path)) == Some(Joined(done, fs))
  {
    hide Get, Tokens, Joined;
    AtResolves(doc, path, Joined(done, fs));
  }

  /** Removing the leftover at index |done| leaves the same walk with one element less. */
  lemma ArrayRemoveStep(doc: Json, path: string, fs: seq<Json>, done: seq<Doc>, stale: char)
    requires ArrayWalk(doc, path, fs, [], done) && fs != []
    ensures var ps := [Compose("remove", FullPath(path, Some(Decimal(|done|)), stale), None)];
      && Yields(doc, path, ps, Joined(done, fs[1..]))
      && ArrayWalk(ApplyPatches(doc, ps).doc, path, fs[1..], [], done)
  {
    var d, t := Joined(done, fs), Decimal(|done|);
    AtIsReadable(doc, path, d);
    ElementsSplit(fs);
    ArrayChild(done, Abs(fs[0]), Elements(fs[1..]), DNull);
    SmallChild(done, Abs(fs[0]), Elements(fs[1..]));
    YieldsEdit(doc, path, d, REMOVE, t, None, stale);
    AtAfter(doc, path, d, [Compose("remove", FullPath(path, Some(t), stale), None)], Joined(done, fs[1..]));
  }

  lemma AppendChild(done: seq<Doc>, y: Doc)
    ensures AddChild(Joined(done, []), "-", y) == Some(Joined(done + [y], []))
    ensures RegularToken("-") && Clean("-")
  {
    assert Elements([]) == [] && done + [] == done && (done + [y]) + [] == done + [y];
  }

  lemma TargetSplit(done: seq<Doc>, ts: seq<Json>)
    requires ts != []
    ensures Joined(done, ts) == Joined(done + [Abs(ts[0])], ts[1..])
    ensures Joined(done, ts) == DArray(done + ([Abs(ts[0])] + Elements(ts[1..])))
    ensures Distinct(Array(ts)) ==> Distinct(ts[0]) && Distinct(Array(ts[1..]))
    ensures CleanKeys(Array(ts)) ==> CleanKeys(ts[0]) && CleanKeys(Array(ts[1..]))
  {
    ElementsSplit(ts);
  }

  /** Appending the first leftover of the target. */
  lemma ArrayAppendStep(doc: Json, path: string, ts: seq<Json>, done: seq<Doc>, stale: char)
    requires ArrayWalk(doc, path, [], ts, done) && ts != []
    ensures var ps := [Compose("add", FullPath(path, Some("-"), stale), Some(ts[0]))];
      && Yields(doc, path, ps, Joined(done + [Abs(ts[0])], []))
      && ArrayWalk(ApplyPatches(doc, ps).doc, path, [], ts[1..], done + [Abs(ts[0])])
  {
    hide Compose, FullPath, Tokens, Get, RegularToken, ApplyPatches, Yields, AddChild;
    var d, y := Joined(done, []), Abs(ts[0]);
    TargetSplit(done, ts);
    AppendChild(done, y);
    SmallChild(done, y, Elements(ts[1..]));
    YieldsEdit(doc, path, d, ADD, "-", Some(ts[0]), stale);
    AtAfter(doc, path, d, [Compose("add", FullPath(path, Some("-"), stale), Some(ts[0]))], Joined(done + [y], []));
  }

  /** The element at index |done| is a location of its own. */
  lemma ArrayPairPlace(doc: Json, path: string, fs: seq<Json>, ts: seq<Json>, done: seq<Doc>, stale: char)
    requires ArrayWalk(doc, path, fs, ts, done) && fs != [] && ts != []
    ensures At(doc, path + "/" + Decimal(|done|), Abs(fs[0])) && Small(Abs(ts[0]))
    ensures Distinct(fs[0]) && Distinct(ts[0]) && CleanKeys(fs[0]) && CleanKeys(ts[0])
  {
    var d := Joined(done, fs);
    AtIsReadable(doc, path, d);
    TargetSplit(done, fs);
    TargetSplit(done, ts);
    SmallChild(done, Abs(ts[0]), Elements(ts[1..]));
    ArrayChild(done, Abs(fs[0]), Elements(fs[1..]), DNull);
    ChildPath(doc, path, d, Decimal(|done|), stale);
  }

  /** Once it holds its target the walk can go on behind it. */
  lemma ArrayPairStep(doc: Json, path: string, fs: seq<Json>, ts: seq<Json>, done: seq<Doc>, ps: seq<Json>)
    requires ArrayWalk(doc, path, fs, ts, done) && fs != [] && ts != []
    requires At(doc, path + "/" + Decimal(|done|), Abs(fs[0]))
    requires Yields(doc, path + "/" + Decimal(|done|), ps, Abs(ts[0]))
    ensures Yields(doc, path, ps, Joined(done + [Abs(ts[0])], fs[1..]))
    ensures ArrayWalk(ApplyPatches(doc, ps).doc, path, fs[1..], ts[1..], done + [Abs(ts[0])])
  {
    hide Tokens, Get, RegularToken, ApplyPatches, Yields, Decimal;
    var d, y := Joined(done, fs), Abs(ts[0]);
    AtIsReadable(doc, path, d);
    TargetSplit(done, fs);
    TargetSplit(done, ts);
    ArrayChild(done, Abs(fs[0]), Elements(fs[1..]), y);
    SmallChild(done, Abs(fs[0]), Elements(fs[1..]));
    SmallChild(done, y, Elements(ts[1..]));
    YieldsAtChild(doc, path, d, Decimal(|done|), ps, y);
    AtAfter(doc, path, d, ps, Joined(done + [y], fs[1..]));
  }

  lemma ArrayPatchesCases(path: string, fs: seq<Json>, ts: seq<Json>, i: nat, stale: char)
    ensures var all := ArrayPatches(path, fs, ts, i, stale);
      if fs != [] && ts != [] then
        all == CreatePatches(path + "/" + Decimal(i), fs[0], ts[0], stale) + ArrayPatches(path, fs[1..], ts[1..], i + 1, stale)
      else if fs != [] then
        all == [Compose("remove", FullPath(path, Some(Decimal(i)), stale), None)] + ArrayPatches(path, fs[1..], ts, i, stale)
      else if ts != [] then
        all == [Compose("add", FullPath(path, Some("-"), stale), Some(ts[0]))] + ArrayPatches(path, fs, ts[1..], i + 1, stale)
      else all == []
  {
    hide CreatePatches, Compose, FullPath, Decimal;
  }

  lemma {:induction false} ArrayPatchesArrive(doc: Json, path: string, fs: seq<Json>, ts: seq<Json>, done: seq<Doc>, stale: char)
    requires ArrayWalk(doc, path, fs, ts, done)
    ensures Yields(doc, path, ArrayPatches(path, fs, ts, |done|, stale), Joined(done, ts))
    decreases Height(Array(fs)), 0, |fs| + |ts|
  {
    hide Joined, ArrayPatches, CreatePatches, Compose, Distinct, CleanKeys, Small, FullPath, Decimal, Yields,
      ArrayWalk, At, Get, Tokens, Abs, ApplyPatches;
    ArrayPatchesCases(path, fs, ts, |done|, stale);
    ArrayWalkResolves(doc, path, fs, ts, done);
    var goal := Joined(done, ts);
    if fs != [] && ts != [] {
      var y := Abs(ts[0]);
      ItemIsLower(fs, 0);
      TargetSplit(done, ts);
      ArrayPairPlace(doc, path, fs, ts, done, stale);
      var ps := CreatePatches(path + "/" + Decimal(|done|), fs[0], ts[0], stale);
      PatchesArrive(doc, path + "/" + Decimal(|done|), fs[0], ts[0], stale);
      ArrayPairStep(doc, path, fs, ts, done, ps);
      var mid := ApplyPatches(doc, ps).doc;
      ArrayWalkResolves(mid, path, fs[1..], ts[1..], done + [y]);
      ArrayPatchesArrive(mid, path, fs[1..], ts[1..], done + [y], stale);
      YieldsThen(doc, path, ps, Joined(done + [y], fs[1..]),
                 ArrayPatches(path, fs[1..], ts[1..], |done| + 1, stale), goal);
    } else if fs != [] {
      var ps := [Compose("remove", FullPath(path, Some(Decimal(|done|)), stale), None)];
      ArrayRemoveStep(doc, path, fs, done, stale);
      assert HeightOfItems(fs[1..]) <= HeightOfItems(fs);
      var mid := ApplyPatches(doc, ps).doc;
      ArrayWalkResolves(mid, path, fs[1..], ts, done);
      ArrayPatchesArrive(mid, path, fs[1..], ts, done, stale);
      YieldsThen(doc, path, ps, Joined(done, fs[1..]), ArrayPatches(path, fs[1..], ts, |done|, stale), goal);
    } else if ts != [] {
      var y := Abs(ts[0]);
      TargetSplit(done, ts);
      var ps := [Compose("add", FullPath(path, Some("-"), stale), Some(ts[0]))];
      ArrayAppendStep(doc, path, ts, done, stale);
      var mid := ApplyPatches(doc, ps).doc;
      ArrayWalkResolves(mid, path, fs, ts[1..], done + [y]);
      ArrayPatchesArrive(mid, path, fs, ts[1..], done + [y], stale);
      YieldsThen(doc, path, ps, Joined(done + [y], []), ArrayPatches(path, fs, ts[1..], |done| + 1, stale), goal);
    } else {
      ArrayWalkAt(doc, path, fs, ts, done);
      YieldsNothing(doc, path, goal);
    }
  }

  // ----- objects

  /** The object of the members left and of what is done. */
  function Merged(ms: seq<Member<Json>>, e: map<string, Doc>): Doc { DObject(Fields(ms) + e) }

  ghost predicate Disjoint(ms: seq<Member<Json>>, e: map<string, Doc>) {
    Fields(ms).Keys !! e.Keys
  }

  lemma ObjectChild(ms: seq<Member<Json>>, e: map<string, Doc>, y: Doc)
    requires ms != [] && DistinctMembers(ms) && CleanMembers(ms) && Disjoint(ms, e)
    ensures var d, t, k := Merged(ms, e), ms[0].key, Fold(ms[0].key);
      && Clean(t)
      && Child(d, t) == Some(Abs(ms[0].value))
      && SetChild(d, t, y) == Merged(ms[1..], e[k := y])
      && RemoveChild(d, t) == Some(Merged(ms[1..], e))
      && Disjoint(ms[1..], e[k := y]) && Disjoint(ms[1..], e)
  {
    TailMembers(ms);
    UnescapeClean(ms[0].key);
    var k := Fold(ms[0].key);
    assert Fields(ms) == Fields(ms[1..])[k := Abs(ms[0].value)];
    assert (Fields(ms) + e)[k := y] == Fields(ms[1..]) + e[k := y];
    assert (Fields(ms) + e) - {k} == Fields(ms[1..]) + e;
  }

  lemma ObjectTarget(ts: seq<Member<Json>>, e: map<string, Doc>)
    requires ts != [] && DistinctMembers(ts) && Disjoint(ts, e)
    ensures var k := Fold(ts[0].key);
      && Fields(ts[1..]) + e[k := Abs(ts[0].value)] == Fields(ts) + e
      && Disjoint(ts[1..], e[k := Abs(ts[0].value)])
  {
    TailMembers(ts);
    var k := Fold(ts[0].key);
    assert Fields(ts) == Fields(ts[1..])[k := Abs(ts[0].value)];
  }

  lemma SmallFields(m: map<string, Doc>, n: map<string, Doc>)
    requires Small(DObject(m))
    requires forall k :: k in n ==> k in m && n[k] == m[k]
    ensures Small(DObject(n))
  {
  }

  lemma TailSorted(ms: seq<Member<Json>>)
    requires ms != [] && Ascending(ms) && DistinctMembers(ms) && CleanMembers(ms)
    ensures Ascending(ms[1..]) && DistinctMembers(ms[1..]) && CleanMembers(ms[1..])
  {
    TailMembers(ms);
    assert forall i :: 0 <= i < |ms| - 1 ==> ms[1..][i] == ms[i + 1];
  }

  ghost predicate Walkable(ms: seq<Member<Json>>) {
    Ascending(ms) && DistinctMembers(ms) && CleanMembers(ms)
  }

  ghost predicate ObjectWalk(doc: Json, path: string, fs: seq<Member<Json>>, ts: seq<Member<Json>>, e: map<string, Doc>) {
    && At(doc, path, Merged(fs, e)) && Small(Merged(ts, e))
    && Walkable(fs) && Walkable(ts) && Disjoint(fs, e) && Disjoint(ts, e)
  }

  lemma ObjectWalkAt(doc: Json, path: string, fs: seq<Member<Json>>, ts: seq<Member<Json>>, e: map<string, Doc>)
    requires ObjectWalk(doc, path, fs, ts, e)
    ensures At(doc, path, Merged(fs, e))
  {
  }

  lemma ObjectWalkResolves(doc: Json, path: string, fs: seq<Member<Json>>, ts: seq<Member<Json>>, e: map<string, Doc>)
    requires ObjectWalk(doc, path, fs, ts, e)
    ensures Get(Abs(doc), Tokens(path)) == Some(Merged(fs, e))
  {
    hide Get, Tokens, Merged;
    AtResolves(doc, path, Merged(fs, e));
  }

  /** The first key of the source is not in the target: remove it. */
  lemma ObjectRemoveStep(doc: Json, path: string, fs: seq<Member<Json>>, ts: seq<Member<Json>>,
                         e: map<string, Doc>, stale: char)
    requires ObjectWalk(doc, path, fs, ts, e) && fs != []
    ensures var ps := [Compose("remove", FullPath(path, Some(fs[0].key), stale), None)];
      && Yields(doc, path, ps, Merged(fs[1..], e))
      && ObjectWalk(ApplyPatches(doc, ps).doc, path, fs[1..], ts, e)
  {
    var d, v := Merged(fs, e), Merged(fs[1..], e);
    AtIsReadable(doc, path, d);
    TailSorted(fs);
    ObjectChild(fs, e, DNull);
    YieldsEdit(doc, path, d, REMOVE, fs[0].key, None, stale);
    TailMembers(fs);
    SmallFields(Fields(fs) + e, Fields(fs[1..]) + e);
    AtAfter(doc, path, d, [Compose("remove", FullPath(path, Some(fs[0].key), stale), None)], v);
  }

  lemma SmallUpdate(m: map<string, Doc>, k: string, y: Doc)
    requires Small(DObject(m)) && Small(y)
    ensures Small(DObject(m[k := y]))
  {
    var n := m[k := y];
    assert forall l :: l in n ==> n[l] == if l == k then y else m[l];
  }

  lemma ObjectNewKey(fs: seq<Member<Json>>, ts: seq<Member<Json>>, e: map<string, Doc>)
    requires Ascending(fs) && DistinctMembers(ts) && Disjoint(fs, e) && Disjoint(ts, e) && ts != []
    requires fs == [] || Less(Fold(ts[0].key), Fold(fs[0].key))
    requires CleanMembers(ts) && Small(Merged(fs, e)) && Small(Merged(ts, e))
    ensures var e' := e[Fold(ts[0].key) := Abs(ts[0].value)];
      && AddChild(Merged(fs, e), ts[0].key, Abs(ts[0].value)) == Some(Merged(fs, e'))
      && Small(Merged(fs, e')) && Disjoint(fs, e') && Disjoint(ts[1..], e')
      && Merged(ts[1..], e') == Merged(ts, e)
  {
    var k, y := Fold(ts[0].key), Abs(ts[0].value);
    KeyBelow(k, fs);
    ObjectTarget(ts, e);
    UnescapeClean(ts[0].key);
    assert (Fields(ts) + e)[k] == y;
    SmallUpdate(Fields(fs) + e, k, y);
    assert (Fields(fs) + e)[k := y] == Fields(fs) + e[k := y];
  }

  /** The first key of the target is not in the source: add it. */
  lemma ObjectAddStep(doc: Json, path: string, fs: seq<Member<Json>>, ts: seq<Member<Json>>,
                      e: map<string, Doc>, stale: char)
    requires ObjectWalk(doc, path, fs, ts, e) && ts != []
    requires fs == [] || Less(Fold(ts[0].key), Fold(fs[0].key))
    ensures var ps, e' := [Compose("add", FullPath(path, Some(ts[0].key), stale), Some(ts[0].value))],
                          e[Fold(ts[0].key) := Abs(ts[0].value)];
      && Yields(doc, path, ps, Merged(fs, e'))
      && ObjectWalk(ApplyPatches(doc, ps).doc, path, fs, ts[1..], e')
      && Merged(ts[1..], e') == Merged(ts, e)
  {
    var e' := e[Fold(ts[0].key) := Abs(ts[0].value)];
    AtIsReadable(doc, path, Merged(fs, e));
    ObjectNewKey(fs, ts, e);
    TailSorted(ts);
    YieldsEdit(doc, path, Merged(fs, e), ADD, ts[0].key, Some(ts[0].value), stale);
    AtAfter(doc, path, Merged(fs, e),
            [Compose("add", FullPath(path, Some(ts[0].key), stale), Some(ts[0].value))], Merged(fs, e'));
  }

  /** A member of both objects is a location of its own. */
  lemma ObjectPairPlace(doc: Json, path: string, fs: seq<Member<Json>>, ts: seq<Member<Json>>,
                        e: map<string, Doc>, stale: char)
    requires ObjectWalk(doc, path, fs, ts, e) && fs != [] && ts != [] && Fold(fs[0].key) == Fold(ts[0].key)
    ensures FullPath(path, Some(fs[0].key), stale) == path + "/" + fs[0].key
    ensures At(doc, path + "/" + fs[0].key, Abs(fs[0].value)) && Small(Abs(ts[0].value))
    ensures Distinct(fs[0].value) && Distinct(ts[0].value) && CleanKeys(fs[0].value) && CleanKeys(ts[0].value)
  {
    var d := Merged(fs, e);
    ObjectChild(fs, e, DNull);
    ChildPath(doc, path, d, fs[0].key, stale);
    TailMembers(ts);
    assert (Fields(ts) + e)[Fold(ts[0].key)] == Abs(ts[0].value);
  }

  /** Once it holds its target the walk can go on behind it. */
  lemma ObjectPairStep(doc: Json, path: string, fs: seq<Member<Json>>, ts: seq<Member<Json>>,
                       e: map<string, Doc>, ps: seq<Json>)
    requires ObjectWalk(doc, path, fs, ts, e) && fs != [] && ts != [] && Fold(fs[0].key) == Fold(ts[0].key)
    requires At(doc, path + "/" + fs[0].key, Abs(fs[0].value))
    requires Yields(doc, path + "/" + fs[0].key, ps, Abs(ts[0].value))
    ensures var e' := e[Fold(ts[0].key) := Abs(ts[0].value)];
      && Yields(doc, path, ps, Merged(fs[1..], e'))
      && ObjectWalk(ApplyPatches(doc, ps).doc, path, fs[1..], ts[1..], e')
      && Merged(ts[1..], e') == Merged(ts, e)
  {
    hide Tokens, Get, ApplyPatches, Yields;
    var k, y := Fold(ts[0].key), Abs(ts[0].value);
    var d, v := Merged(fs, e), Merged(fs[1..], e[k := y]);
    TailSorted(fs);
    TailSorted(ts);
    ObjectChild(fs, e, y);
    ObjectTarget(ts, e);
    YieldsAtChild(doc, path, d, fs[0].key, ps, y);
    AtIsReadable(doc, path, d);
    TailMembers(fs);
    assert (Fields(ts) + e)[k] == y;
    assert Small(v);
    AtAfter(doc, path, d, ps, v);
  }

  lemma ObjectPatchesCases(path: string, fs: seq<Member<Json>>, ts: seq<Member<Json>>, stale: char, h: nat)
    requires MembersBelow(fs, h)
    ensures var all := ObjectPatches(path, fs, ts, stale, h);
      if fs == [] && ts == [] then all == []
      else if ts == [] || (fs != [] && Less(Fold(fs[0].key), Fold(ts[0].key))) then
        all == [Compose("remove", FullPath(path, Some(fs[0].key), stale), None)] + ObjectPatches(path, fs[1..], ts, stale, h)
      else if fs == [] || Fold(fs[0].key) != Fold(ts[0].key) then
        all == [Compose("add", FullPath(path, Some(ts[0].key), stale), Some(ts[0].value))]
               + ObjectPatches(path, fs, ts[1..], stale, h)
      else
        all == CreatePatches(FullPath(path, Some(fs[0].key), stale), fs[0].value, ts[0].value, stale)
               + ObjectPatches(path, fs[1..], ts[1..], stale, h)
  {
    hide CreatePatches, Compose, FullPath, Less, Fold;
  }

  lemma {:induction false} ObjectPatchesArrive(doc: Json, path: string, fs: seq<Member<Json>>, ts: seq<Member<Json>>,
                                               e: map<string, Doc>, stale: char, h: nat)
    requires ObjectWalk(doc, path, fs, ts, e) && MembersBelow(fs, h)
    ensures Yields(doc, path, ObjectPatches(path, fs, ts, stale, h), Merged(ts, e))
    decreases h, 0, |fs| + |ts|
  {
    hide Merged, ObjectPatches, CreatePatches, Compose, Distinct, Small, FullPath, Fold, Less, Yields, ObjectWalk, At,
      Get, Tokens, Abs, ApplyPatches;
    ObjectPatchesCases(path, fs, ts, stale, h);
    ObjectWalkResolves(doc, path, fs, ts, e);
    var goal := Merged(ts, e);
    if fs == [] && ts == [] {
      ObjectWalkAt(doc, path, fs, ts, e);
      YieldsNothing(doc, path, goal);
    } else if ts == [] || (fs != [] && Less(Fold(fs[0].key), Fold(ts[0].key))) {
      var ps := [Compose("remove", FullPath(path, Some(fs[0].key), stale), None)];
      ObjectRemoveStep(doc, path, fs, ts, e, stale);
      var mid := ApplyPatches(doc, ps).doc;
      ObjectWalkResolves(mid, path, fs[1..], ts, e);
      ObjectPatchesArrive(mid, path, fs[1..], ts, e, stale, h);
      YieldsThen(doc, path, ps, Merged(fs[1..], e), ObjectPatches(path, fs[1..], ts, stale, h), goal);
    } else if fs == [] || Fold(fs[0].key) != Fold(ts[0].key) {
      var e' := e[Fold(ts[0].key) := Abs(ts[0].value)];
      var ps := [Compose("add", FullPath(path, Some(ts[0].key), stale), Some(ts[0].value))];
      if fs != [] { LessTrichotomy(Fold(fs[0].key), Fold(ts[0].key)); }
      ObjectAddStep(doc, path, fs, ts, e, stale);
      var mid := ApplyPatches(doc, ps).doc;
      ObjectWalkResolves(mid, path, fs, ts[1..], e');
      ObjectPatchesArrive(mid, path, fs, ts[1..], e', stale, h);
      YieldsThen(doc, path, ps, Merged(fs, e'), ObjectPatches(path, fs, ts[1..], stale, h), goal);
    } else {
      ObjectPairArrives(doc, path, fs, ts, e, stale, h);
    }
  }

  lemma {:induction false} ObjectPairArrives(doc: Json, path: string, fs: seq<Member<Json>>, ts: seq<Member<Json>>,
                                             e: map<string, Doc>, stale: char, h: nat)
    requires ObjectWalk(doc, path, fs, ts, e) && MembersBelow(fs, h)
    requires fs != [] && ts != [] && Fold(fs[0].key) == Fold(ts[0].key)
    ensures Yields(doc, path, ObjectPatches(path, fs, ts, stale, h), Merged(ts, e))
    decreases h, 0, |fs| + |ts|, 0
  {
    hide Merged, ObjectPatches, CreatePatches, Compose, Distinct, Small, FullPath, Fold, Less, Yields, ObjectWalk, At,
      Get, Tokens, Abs, ApplyPatches;
    ObjectPatchesCases(path, fs, ts, stale, h);
    ObjectWalkResolves(doc, path, fs, ts, e);
    LessTrichotomy(Fold(fs[0].key), Fold(ts[0].key));
    var e' := e[Fold(ts[0].key) := Abs(ts[0].value)];
    var ps := CreatePatches(path + "/" + fs[0].key, fs[0].value, ts[0].value, stale);
    ObjectPairPlace(doc, path, fs, ts, e, stale);
    PatchesArrive(doc, path + "/" + fs[0].key, fs[0].value, ts[0].value, stale);
    ObjectPairStep(doc, path, fs, ts, e, ps);
    var mid := ApplyPatches(doc, ps).doc;
    ObjectWalkResolves(mid, path, fs[1..], ts[1..], e');
    ObjectPatchesArrive(mid, path, fs[1..], ts[1..], e', stale, h);
    YieldsThen(doc, path, ps, Merged(fs[1..], e'), ObjectPatches(path, fs[1..], ts[1..], stale, h), Merged(ts, e));
  }

  /**
   * The round trip of JSON Patch: patches generated from two documents, applied to any copy of the
   * first (member order and key case may differ), succeed and give a document equal to the second.
   */
  lemma RoundTrip(from: Json, to: Json, copy: Json, stale: char)
    requires Distinct(from) && Distinct(to) && CleanKeys(from) && CleanKeys(to)
    requires Small(Abs(from)) && Small(Abs(to))
    requires Distinct(copy) && Abs(copy) == Abs(from)
    ensures var r := ApplyPatches(copy, CreatePatches("", from, to, stale));
      r.status == 0 && Abs(r.doc) == Abs(to) && Distinct(r.doc)
  {
    PatchesArrive(copy, "", from, to, stale);
  }
}
