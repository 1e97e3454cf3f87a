// create_patches writes no patch that is not needed: each names a place where the two documents
// differ, and says what has to happen there.
module Needs {
  import opened Texts
  import opened Documents
  import opened Sorting
  import opened Comparing
  import opened Pointers
  import opened Patching
  import opened Diffing

  /** Different values that are not both arrays and not both objects. */
  predicate Replaceable(x: Doc, y: Doc) {
    x != y && !(x.DArray? && y.DArray?) && !(x.DObject? && y.DObject?)
  }

  /** Where both documents have an array, the second a longer one, and v is one of its surplus elements. */
  predicate Surplus(p: Option<Doc>, q: Option<Doc>, v: Doc) {
    p.Some? && q.Some? && p.value.DArray? && q.value.DArray?
    && |p.value.items| < |q.value.items| && v in q.value.items[|p.value.items|..]
  }

  /** What a patch may say of the place ts, when it is to lead from d to e. */
  predicate Needed(d: Doc, e: Doc, op: string, ts: seq<string>, value: Option<Doc>) {
    if op == "replace" then
      Get(d, ts).Some? && Get(e, ts).Some? && Replaceable(Get(d, ts).value, Get(e, ts).value) && value == Get(e, ts)
    else if op == "remove" then Get(d, ts).Some? && Get(e, ts).None? && value == None
    else
      && op == "add" && ts != [] && Get(d, ts).None? && value.Some?
      && (Get(e, ts) == value || (Last(ts) == "-" && Surplus(Get(d, Init(ts)), Get(e, Init(ts)), value.value)))
  }

  /** The path of a place below path. */
  function Below(path: string, ts: seq<string>): string
    decreases |ts|
  {
    if ts == [] then path else Below(path + "/" + ts[0], ts[1..])
  }

  function AbsOption(v: Option<Json>): Option<Doc> { if v.None? then None else Some(Abs(v.value)) }

  /** One patch, and the place it names below path. */
  datatype Place = Place(op: string, ts: seq<string>, value: Option<Json>)

  predicate Says(p: Json, path: string, w: Place) {
    p == Compose(w.op, Below(path, w.ts), w.value) && w.op in ["add", "remove", "replace"]
    && forall i :: 0 <= i < |w.ts| ==> Clean(w.ts[i])
  }

  ghost predicate NeededAt(d: Doc, e: Doc, p: Json, path: string, w: Place) {
    Says(p, path, w) && Needed(d, e, w.op, w.ts, AbsOption(w.value))
  }

  lemma GetCons(d: Doc, t: string, ts: seq<string>)
    ensures Get(d, [t] + ts) == if Child(d, t).Some? then Get(Child(d, t).value, ts) else None
    ensures Get(d, [t]) == Child(d, t)
  {
    assert ([t] + ts)[1..] == ts && [t][1..] == [];
  }

  /** What is needed in a child is needed in the document. */
  lemma NeededAbove(d: Doc, e: Doc, p: Json, path: string, t: string, w: Place)
    requires Child(d, t).Some? && Child(e, t).Some? && Clean(t)
    requires NeededAt(Child(d, t).value, Child(e, t).value, p, path + "/" + t, w)
    ensures NeededAt(d, e, p, path, w.(ts := [t] + w.ts))
  {
    hide Compose, Child, Get, Clean;
    var ts := [t] + w.ts;
    assert ts[1..] == w.ts;
    GetCons(d, t, w.ts);
    GetCons(e, t, w.ts);
    if w.op == "add" {
      assert Init(ts) == [t] + Init(w.ts) && Last(ts) == Last(w.ts);
      GetCons(d, t, Init(w.ts));
      GetCons(e, t, Init(w.ts));
    }
  }

  lemma OneBelow(path: string, t: string, stale: char)
    requires Clean(t)
    ensures FullPath(path, Some(t), stale) == Below(path, [t]) == path + "/" + t
  {
    EncodeClean(t, stale);
    assert [t][1..] == [];
  }

  lemma {:induction false} PatchNeeded(path: string, from: Json, to: Json, stale: char, p: Json) returns (w: Place)
    requires Distinct(from) && Distinct(to) && CleanKeys(from) && CleanKeys(to)
    requires p in CreatePatches(path, from, to, stale)
    ensures NeededAt(Abs(from), Abs(to), p, path, w)
    decreases Height(from), 1, 0
  {
    hide Needed, Says, Compose;
    if SameType(from, to) && from.Array? {
      w := ArrayPatchNeeded(path, from.items, to.items, 0, stale, p, Elements(from.items), Elements(to.items));
    } else if SameType(from, to) && from.Object? {
      SortedBelow(from.members);
      SortedMembers(from.members);
      SortedMembers(to.members);
      CleanSorted(from.members);
      CleanSorted(to.members);
      w := ObjectPatchNeeded(path, MergeSort(from.members, false), MergeSort(to.members, false), stale, Height(from), p,
                             Fields(from.members), Fields(to.members));
    } else {
      w := ScalarPatchNeeded(path, from, to, stale, p);
    }
  }

  lemma ScalarPatchNeeded(path: string, from: Json, to: Json, stale: char, p: Json) returns (w: Place)
    requires SameType(from, to) ==> !from.Array? && !from.Object?
    requires p in CreatePatches(path, from, to, stale)
    ensures NeededAt(Abs(from), Abs(to), p, path, w)
  {
    hide Compose, CreatePatches;
    ScalarPatches(path, from, to, stale);
    w := Place("replace", [], Some(to));
    GetRoot(Abs(from));
    GetRoot(Abs(to));
  }

  /** What is left of the two arrays, at index i of the walk. */
  predicate Leftovers(fs: seq<Json>, ts: seq<Json>, i: nat, F: seq<Doc>, T: seq<Doc>) {
    && |fs| <= |F| && F[|F| - |fs|..] == Elements(fs) && |ts| <= |T| && T[|T| - |ts|..] == Elements(ts)
    && (fs != [] && ts != [] ==> i == |F| - |fs| == |T| - |ts|)
    && (fs != [] && ts == [] ==> i == |T| < |F|)
    && (fs == [] && ts != [] ==> |F| <= |T| - |ts|)
  }

  lemma LeftoversStep(fs: seq<Json>, ts: seq<Json>, i: nat, F: seq<Doc>, T: seq<Doc>)
    requires Leftovers(fs, ts, i, F, T)
    ensures fs != [] && ts != [] ==>
      F[i] == Abs(fs[0]) && T[i] == Abs(ts[0]) && i < |F| && i < |T| && Leftovers(fs[1..], ts[1..], i + 1, F, T)
    ensures fs != [] && ts == [] ==> i == |T| < |F| && Leftovers(fs[1..], ts, i, F, T)
    ensures fs == [] && ts != [] ==> |F| < |T| && Leftovers(fs, ts[1..], i + 1, F, T) && Abs(ts[0]) in T[|F|..]
  {
    if fs != [] { assert F[|F| - |fs|..][0] == F[|F| - |fs|] == Abs(fs[0]); }
    if ts != [] { assert T[|T| - |ts|..][0] == T[|T| - |ts|] == Abs(ts[0]); }
  }

  lemma IndexChild(items: seq<Doc>, i: nat)
    ensures Child(DArray(items), Decimal(i)) == if i < |items| then Some(items[i]) else None
    ensures Child(DArray(items), "-") == None && Clean(Decimal(i)) && Clean("-")
  {
    DecimalIsIndex(i);
  }

  lemma {:induction false} ArrayPatchNeeded(path: string, fs: seq<Json>, ts: seq<Json>, i: nat, stale: char, p: Json,
                                            F: seq<Doc>, T: seq<Doc>)
    returns (w: Place)
    requires Distinct(Array(fs)) && Distinct(Array(ts)) && CleanKeys(Array(fs)) && CleanKeys(Array(ts))
    requires Leftovers(fs, ts, i, F, T) && p in ArrayPatches(path, fs, ts, i, stale)
    ensures NeededAt(DArray(F), DArray(T), p, path, w)
    decreases Height(Array(fs)), 0, |fs| + |ts|
  {
    hide ArrayPatches, CreatePatches, Compose, Distinct, CleanKeys, FullPath, Decimal, Leftovers, NeededAt, Child, Abs;
    ArrayPatchesCases(path, fs, ts, i, stale);
    LeftoversStep(fs, ts, i, F, T);
    IndexChild(F, i);
    IndexChild(T, i);
    if fs != [] && ts != [] {
      ItemIsLower(fs, 0);
      ElementsSplit(fs);
      ElementsSplit(ts);
      if p in CreatePatches(path + "/" + Decimal(i), fs[0], ts[0], stale) {
        w := PatchNeeded(path + "/" + Decimal(i), fs[0], ts[0], stale, p);
        NeededAbove(DArray(F), DArray(T), p, path, Decimal(i), w);
        w := w.(ts := [Decimal(i)] + w.ts);
      } else {
        w := ArrayPatchNeeded(path, fs[1..], ts[1..], i + 1, stale, p, F, T);
      }
    } else if fs != [] {
      ElementsSplit(fs);
      assert HeightOfItems(fs[1..]) <= HeightOfItems(fs);
      if p in ArrayPatches(path, fs[1..], ts, i, stale) {
        w := ArrayPatchNeeded(path, fs[1..], ts, i, stale, p, F, T);
      } else {
        w := Place("remove", [Decimal(i)], None);
        SurplusRemoved(path, i, stale, p, F, T);
      }
    } else if ts != [] {
      ElementsSplit(ts);
      if p in ArrayPatches(path, fs, ts[1..], i + 1, stale) {
        w := ArrayPatchNeeded(path, fs, ts[1..], i + 1, stale, p, F, T);
      } else {
        w := Place("add", ["-"], Some(ts[0]));
        SurplusAdded(path, ts[0], stale, p, F, T);
      }
    }
  }

  lemma SurplusRemoved(path: string, i: nat, stale: char, p: Json, F: seq<Doc>, T: seq<Doc>)
    requires i == |T| < |F| && p == Compose("remove", FullPath(path, Some(Decimal(i)), stale), None)
    ensures NeededAt(DArray(F), DArray(T), p, path, Place("remove", [Decimal(i)], None))
  {
    hide Compose, Decimal, Child, Get, FullPath, Below;
    IndexChild(F, i);
    IndexChild(T, i);
    OneBelow(path, Decimal(i), stale);
    GetCons(DArray(F), Decimal(i), []);
    GetCons(DArray(T), Decimal(i), []);
  }

  lemma SurplusAdded(path: string, v: Json, stale: char, p: Json, F: seq<Doc>, T: seq<Doc>)
    requires |F| < |T| && Abs(v) in T[|F|..] && p == Compose("add", FullPath(path, Some("-"), stale), Some(v))
    ensures NeededAt(DArray(F), DArray(T), p, path, Place("add", ["-"], Some(v)))
  {
    hide Compose, Child, Get, FullPath, Below;
    IndexChild(F, 0);
    OneBelow(path, "-", stale);
    GetCons(DArray(F), "-", []);
    assert Init(["-"]) == [];
    GetRoot(DArray(F));
    GetRoot(DArray(T));
  }

  // ----- objects

  /** What is left of two objects: a key that is left in one and is in the other is left there too. */
  ghost predicate Left(fs: seq<Member<Json>>, ts: seq<Member<Json>>, m: map<string, Doc>, n: map<string, Doc>) {
    && Walkable(fs) && Walkable(ts)
    && (forall k :: k in Fields(fs) ==> k in m && m[k] == Fields(fs)[k] && (k in n ==> k in Fields(ts)))
    && (forall k :: k in Fields(ts) ==> k in n && n[k] == Fields(ts)[k] && (k in m ==> k in Fields(fs)))
  }

  lemma KeyChild(m: map<string, Doc>, key: string)
    requires Clean(key)
    ensures Child(DObject(m), key) == if Fold(key) in m then Some(m[Fold(key)]) else None
  {
    UnescapeClean(key);
  }

  lemma LeftFirst(fs: seq<Member<Json>>, ts: seq<Member<Json>>, m: map<string, Doc>, n: map<string, Doc>)
    requires Left(fs, ts, m, n) && fs != [] && (ts == [] || Less(Fold(fs[0].key), Fold(ts[0].key)))
    ensures Left(fs[1..], ts, m, n)
    ensures var k := Fold(fs[0].key); k in m && k !in n && Clean(fs[0].key)
  {
    TailSorted(fs);
    TailMembers(fs);
    KeyBelow(Fold(fs[0].key), ts);
    assert Fold(fs[0].key) in Fields(fs);
  }

  lemma LeftSecond(fs: seq<Member<Json>>, ts: seq<Member<Json>>, m: map<string, Doc>, n: map<string, Doc>)
    requires Left(fs, ts, m, n) && ts != [] && (fs == [] || Less(Fold(ts[0].key), Fold(fs[0].key)))
    ensures Left(fs, ts[1..], m, n)
    ensures var k := Fold(ts[0].key); k !in m && k in n && n[k] == Abs(ts[0].value) && Clean(ts[0].key)
  {
    TailSorted(ts);
    TailMembers(ts);
    KeyBelow(Fold(ts[0].key), fs);
    assert Fold(ts[0].key) in Fields(ts);
  }

  lemma LeftBoth(fs: seq<Member<Json>>, ts: seq<Member<Json>>, m: map<string, Doc>, n: map<string, Doc>)
    requires Left(fs, ts, m, n) && fs != [] && ts != [] && Fold(fs[0].key) == Fold(ts[0].key)
    ensures Left(fs[1..], ts[1..], m, n)
    ensures var k := Fold(fs[0].key);
      k in m && m[k] == Abs(fs[0].value) && k in n && n[k] == Abs(ts[0].value) && Clean(fs[0].key)
    ensures Distinct(fs[0].value) && Distinct(ts[0].value) && CleanKeys(fs[0].value) && CleanKeys(ts[0].value)
  {
    TailSorted(fs);
    TailSorted(ts);
    TailMembers(fs);
    TailMembers(ts);
    assert Fold(fs[0].key) in Fields(fs) && Fold(ts[0].key) in Fields(ts);
  }

  lemma {:induction false} ObjectPatchNeeded(path: string, fs: seq<Member<Json>>, ts: seq<Member<Json>>, stale: char, h: nat,
                                             p: Json, m: map<string, Doc>, n: map<string, Doc>)
    returns (w: Place)
    requires MembersBelow(fs, h) && Left(fs, ts, m, n) && p in ObjectPatches(path, fs, ts, stale, h)
    ensures NeededAt(DObject(m), DObject(n), p, path, w)
    decreases h, 0, |fs| + |ts|
  {
    hide ObjectPatches, CreatePatches, Compose, Distinct, CleanKeys, FullPath, Left, NeededAt, Child, Abs, Fold, Less;
    ObjectPatchesCases(path, fs, ts, stale, h);
    if fs == [] && ts == [] {
    } else if ts == [] || (fs != [] && Less(Fold(fs[0].key), Fold(ts[0].key))) {
      LeftFirst(fs, ts, m, n);
      if p in ObjectPatches(path, fs[1..], ts, stale, h) {
        w := ObjectPatchNeeded(path, fs[1..], ts, stale, h, p, m, n);
      } else {
        w := Place("remove", [fs[0].key], None);
        KeyRemoved(path, fs[0].key, stale, p, m, n);
      }
    } else if fs == [] || Fold(fs[0].key) != Fold(ts[0].key) {
      if fs != [] { LessTrichotomy(Fold(fs[0].key), Fold(ts[0].key)); }
      LeftSecond(fs, ts, m, n);
      if p in ObjectPatches(path, fs, ts[1..], stale, h) {
        w := ObjectPatchNeeded(path, fs, ts[1..], stale, h, p, m, n);
      } else {
        w := Place("add", [ts[0].key], Some(ts[0].value));
        KeyAdded(path, ts[0], stale, p, m, n);
      }
    } else {
      LeftBoth(fs, ts, m, n);
      var key := fs[0].key;
      KeyChild(m, key);
      KeyChild(n, key);
      OneBelow(path, key, stale);
      if p in CreatePatches(FullPath(path, Some(key), stale), fs[0].value, ts[0].value, stale) {
        w := PatchNeeded(path + "/" + key, fs[0].value, ts[0].value, stale, p);
        NeededAbove(DObject(m), DObject(n), p, path, key, w);
        w := w.(ts := [key] + w.ts);
      } else {
        w := ObjectPatchNeeded(path, fs[1..], ts[1..], stale, h, p, m, n);
      }
    }
  }

  lemma KeyRemoved(path: string, key: string, stale: char, p: Json, m: map<string, Doc>, n: map<string, Doc>)
    requires Clean(key) && Fold(key) in m && Fold(key) !in n
    requires p == Compose("remove", FullPath(path, Some(key), stale), None)
    ensures NeededAt(DObject(m), DObject(n), p, path, Place("remove", [key], None))
  {
    hide Compose, Child, Get, FullPath, Below, Clean;
    KeyChild(m, key);
    KeyChild(n, key);
    OneBelow(path, key, stale);
    GetCons(DObject(m), key, []);
    GetCons(DObject(n), key, []);
  }

  lemma KeyAdded(path: string, f: Member<Json>, stale: char, p: Json, m: map<string, Doc>, n: map<string, Doc>)
    requires Clean(f.key) && Fold(f.key) !in m && Fold(f.key) in n && n[Fold(f.key)] == Abs(f.value)
    requires p == Compose("add", FullPath(path, Some(f.key), stale), Some(f.value))
    ensures NeededAt(DObject(m), DObject(n), p, path, Place("add", [f.key], Some(f.value)))
  {
    hide Compose, Child, Get, FullPath, Below, Clean;
    KeyChild(m, f.key);
    KeyChild(n, f.key);
    OneBelow(path, f.key, stale);
    GetCons(DObject(m), f.key, []);
    GetCons(DObject(n), f.key, []);
  }

  // ----- what follows

  lemma GetBelow(d: Doc, e: Doc, us: seq<string>, ts: seq<string>)
    requires us <= ts && Get(d, us).Some? && Get(d, us) == Get(e, us)
    ensures Get(d, ts) == Get(e, ts)
  {
    assert ts == us + ts[|us|..];
    GetAppend(d, us, ts[|us|..]);
    GetAppend(e, us, ts[|us|..]);
  }

  lemma DashNeverResolves(d: Doc, e: Doc, ts: seq<string>)
    requires ts != [] && Last(ts) == "-" && Get(d, Init(ts)).Some? && Get(d, Init(ts)).value.DArray?
    ensures Get(d, ts) == None
  {
    SplitLast(d, ts);
  }

  /** Nothing is needed at or below a place that holds the same value in both documents. */
  lemma NothingNeeded(d: Doc, e: Doc, op: string, ts: seq<string>, value: Option<Doc>, us: seq<string>)
    requires Get(d, us).Some? && Get(d, us) == Get(e, us) && Needed(d, e, op, ts, value)
    ensures !(us <= ts)
  {
    hide Get;
    if us <= ts {
      GetBelow(d, e, us, ts);
      assert |us| == |ts| ==> us == ts;
      if op == "add" && |us| < |ts| {
        assert us <= Init(ts);
        GetBelow(d, e, us, Init(ts));
      }
    }
  }

  lemma {:induction false} BelowTokens(path: string, ts: seq<string>)
    requires IsPointer(path) && forall i :: 0 <= i < |ts| ==> Clean(ts[i])
    ensures IsPointer(Below(path, ts)) && Tokens(Below(path, ts)) == Tokens(path) + ts
    decreases |ts|
  {
    if ts != [] {
      TokensAppend(path, ts[0]);
      BelowTokens(path + "/" + ts[0], ts[1..]);
      assert Tokens(path) + [ts[0]] + ts[1..] == Tokens(path) + ts;
    }
  }

  /** The text of a patch's "path". */
  function PathOf(p: Json): string { if StringField(p, "path").Some? then StringField(p, "path").value else "" }

  /** A patch that is needed to lead from from to to, both standing at path. */
  ghost predicate NeededBelow(path: string, from: Json, to: Json, p: Json) {
    exists w :: NeededAt(Abs(from), Abs(to), p, path, w)
  }

  /**
   * Every generated patch is needed: it replaces a value that differs where it cannot be edited, or
   * removes a value that the second document does not have, or adds one that the first has not.
   */
  lemma PatchesAreNeeded(path: string, from: Json, to: Json, stale: char, p: Json)
    requires Distinct(from) && Distinct(to) && CleanKeys(from) && CleanKeys(to)
    requires p in CreatePatches(path, from, to, stale)
    ensures NeededBelow(path, from, to, p)
  {
    var w := PatchNeeded(path, from, to, stale, p);
  }

  lemma PathIs(path: string, p: Json, w: Place)
    requires Says(p, path, w)
    ensures PathOf(p) == Below(path, w.ts)
    ensures IsPointer(path) ==> Tokens(PathOf(p)) == Tokens(path) + w.ts
  {
    hide Compose, Below, Tokens;
    ComposedRequest(w.op, Below(path, w.ts), w.value);
    if IsPointer(path) { BelowTokens(path, w.ts); }
  }

  lemma PrefixTail(a: seq<string>, us: seq<string>, ts: seq<string>)
    ensures a + us <= a + ts <==> us <= ts
  {
    if a + us <= a + ts {
      assert us == (a + us)[|a|..] && ts == (a + ts)[|a|..];
      assert forall i :: 0 <= i < |us| ==> us[i] == (a + us)[|a| + i] == (a + ts)[|a| + i] == ts[i];
    }
  }

  /** No patch names a place at or below one that holds the same value in both documents. */
  lemma EqualPlacesUntouched(path: string, from: Json, to: Json, stale: char, us: seq<string>, p: Json)
    requires Distinct(from) && Distinct(to) && CleanKeys(from) && CleanKeys(to) && IsPointer(path)
    requires Get(Abs(from), us).Some? && Get(Abs(from), us) == Get(Abs(to), us)
    requires p in CreatePatches(path, from, to, stale)
    ensures !(Tokens(path) + us <= Tokens(PathOf(p)))
  {
    hide Compose, Below, Tokens, Get, CreatePatches, Abs, Distinct;
    var w := PatchNeeded(path, from, to, stale, p);
    NothingNeeded(Abs(from), Abs(to), w.op, w.ts, AbsOption(w.value), us);
    PathIs(path, p, w);
    PrefixTail(Tokens(path), us, w.ts);
  }

  /** Two arrays, and two objects, are never replaced as a whole: every patch names a place below them. */
  lemma ContainersAreEdited(path: string, from: Json, to: Json, stale: char, p: Json)
    requires Distinct(from) && Distinct(to) && CleanKeys(from) && CleanKeys(to) && IsPointer(path)
    requires (from.Array? && to.Array?) || (from.Object? && to.Object?)
    requires p in CreatePatches(path, from, to, stale)
    ensures Tokens(path) < Tokens(PathOf(p))
  {
    hide Compose, Below, Tokens, CreatePatches, Distinct;
    var w := PatchNeeded(path, from, to, stale, p);
    GetRoot(Abs(from));
    GetRoot(Abs(to));
    PathIs(path, p, w);
  }

  /** No patches are generated if and only if the documents are equal. */
  lemma EmptyExactlyWhenEqual(path: string, from: Json, to: Json, stale: char)
    requires Distinct(from) && Distinct(to) && CleanKeys(from) && CleanKeys(to)
    ensures CreatePatches(path, from, to, stale) == [] <==> Abs(from) == Abs(to)
  {
    hide CreatePatches, Abs, Distinct;
    if Abs(from) == Abs(to) {
      if CreatePatches(path, from, to, stale) != [] {
        var p := CreatePatches(path, from, to, stale)[0];
        var w := PatchNeeded(path, from, to, stale, p);
        GetRoot(Abs(from));
        NothingNeeded(Abs(from), Abs(to), w.op, w.ts, AbsOption(w.value), []);
      }
    } else if CreatePatches(path, from, to, stale) == [] {
      NoPatchesWhenEqual(path, from, to, stale);
    }
  }

  lemma {:induction false} NoPatchesWhenEqual(path: string, from: Json, to: Json, stale: char)
    requires Distinct(from) && Distinct(to) && CreatePatches(path, from, to, stale) == []
    ensures Abs(from) == Abs(to)
    decreases Height(from), 1, 0
  {
    hide Compose;
    if SameType(from, to) && from.Array? {
      NoArrayPatches(path, from.items, to.items, 0, stale);
    } else if SameType(from, to) && from.Object? {
      SortedBelow(from.members);
      SortedMembers(from.members);
      SortedMembers(to.members);
      NoObjectPatches(path, MergeSort(from.members, false), MergeSort(to.members, false), stale, Height(from));
    } else {
      ScalarPatches(path, from, to, stale);
    }
  }

  lemma {:induction false} NoArrayPatches(path: string, fs: seq<Json>, ts: seq<Json>, i: nat, stale: char)
    requires Distinct(Array(fs)) && Distinct(Array(ts)) && ArrayPatches(path, fs, ts, i, stale) == []
    ensures Elements(fs) == Elements(ts)
    decreases Height(Array(fs)), 0, |fs| + |ts|
  {
    hide ArrayPatches, CreatePatches, Compose, Distinct, FullPath, Decimal, Abs;
    ArrayPatchesCases(path, fs, ts, i, stale);
    if fs != [] && ts != [] {
      ItemIsLower(fs, 0);
      ElementsSplit(fs);
      ElementsSplit(ts);
      NoPatchesWhenEqual(path + "/" + Decimal(i), fs[0], ts[0], stale);
      NoArrayPatches(path, fs[1..], ts[1..], i + 1, stale);
    }
  }

  lemma {:induction false} NoObjectPatches(path: string, fs: seq<Member<Json>>, ts: seq<Member<Json>>, stale: char, h: nat)
    requires MembersBelow(fs, h) && DistinctMembers(fs) && DistinctMembers(ts)
    requires ObjectPatches(path, fs, ts, stale, h) == []
    ensures Fields(fs) == Fields(ts)
    decreases h, 0, |fs| + |ts|
  {
    hide ObjectPatches, CreatePatches, Compose, FullPath, Fold, Less, Abs, Distinct;
    ObjectPatchesCases(path, fs, ts, stale, h);
    if fs != [] && ts != [] && Fold(fs[0].key) == Fold(ts[0].key) {
      LessTrichotomy(Fold(fs[0].key), Fold(ts[0].key));
      SplitMembers(fs);
      SplitMembers(ts);
      NoPatchesWhenEqual(FullPath(path, Some(fs[0].key), stale), fs[0].value, ts[0].value, stale);
      NoObjectPatches(path, fs[1..], ts[1..], stale, h);
    }
  }

  lemma SplitMembers(ms: seq<Member<Json>>)
    requires ms != [] && DistinctMembers(ms)
    ensures Fields(ms) == Fields(ms[1..])[Fold(ms[0].key) := Abs(ms[0].value)]
    ensures DistinctMembers(ms[1..]) && Distinct(ms[0].value)
  {
    TailMembers(ms);
  }
}
