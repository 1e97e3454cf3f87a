// JSON Merge Patch: merge_patch against the MergePatch function of section 2 of RFC 7396, and
// generate_merge_patch with the exact condition under which its patch leads to the target.
module Merging {
  import opened Texts
  import opened Documents
  import opened Sorting
  import opened Comparing
  import opened Pointers

  // ----- merge_patch

  function MergePatch(target: Option<Json>, patch: Json): Json
    decreases patch, 1
  {
    if !patch.Object? then patch
    else Object(MergeMembers(if target.Some? && target.value.Object? then target.value.members else [], patch.members))
  }

  /** One round per member of the patch: null deletes, anything else is merged into what is there. */
  function MergeMembers(ms: seq<Member<Json>>, ps: seq<Member<Json>>): seq<Member<Json>>
    decreases ps, 0
  {
    if ps == [] then ms
    else
      var name := ps[0].key;
      var rest := DeleteKey(ms, name);
      if ps[0].value.Null? then MergeMembers(rest, ps[1..])
      else
        var i := Find(ms, name);
        var found := if i < |ms| then Some(ms[i].value) else None;
        MergeMembers(rest + [Member(name, MergePatch(found, ps[0].value))], ps[1..])
  }

  // ----- section 2 of RFC 7396

  function Lookup(m: map<string, Doc>, k: string): Option<Doc> {
    if k in m then Some(m[k]) else None
  }

  /** MergePatch(Target, Patch), going through the members of the patch in their order. */
  function RfcMerge(target: Option<Doc>, patch: Json): Doc
    decreases patch, 1
  {
    if !patch.Object? then Abs(patch)
    else DObject(RfcMembers(if target.Some? && target.value.DObject? then target.value.fields else map[], patch.members))
  }

  function RfcMembers(m: map<string, Doc>, ps: seq<Member<Json>>): map<string, Doc>
    decreases ps, 0
  {
    if ps == [] then m
    else
      var k := Fold(ps[0].key);
      if ps[0].value.Null? then RfcMembers(m - {k}, ps[1..])
      else RfcMembers(m[k := RfcMerge(Lookup(m, k), ps[0].value)], ps[1..])
  }

  /** Every object reached through object members has distinct keys; arrays may hold anything. */
  predicate DistinctPaths(j: Json) {
    j.Object? ==> DistinctPathMembers(j.members)
  }

  predicate DistinctPathMembers(ms: seq<Member<Json>>) {
    DistinctKeys(ms) && forall i :: 0 <= i < |ms| ==> DistinctPaths(ms[i].value)
  }

  lemma {:induction j} DistinctHasDistinctPaths(j: Json)
    requires Distinct(j)
    ensures DistinctPaths(j)
  {
  }

  /** merge_patch is the function of RFC 7396, for every patch, whatever its keys. */
  lemma {:induction false} MergePatchIsRfc(target: Option<Json>, patch: Json)
    requires target.Some? ==> DistinctPaths(target.value)
    ensures var r := MergePatch(target, patch);
      Abs(r) == RfcMerge(AbsOption(target), patch) && DistinctPaths(r)
    decreases patch, 1
  {
    if patch.Object? {
      MergeMembersIsRfc(if target.Some? && target.value.Object? then target.value.members else [], patch.members);
    }
  }

  lemma {:induction false} MergeMembersIsRfc(ms: seq<Member<Json>>, ps: seq<Member<Json>>)
    requires DistinctPathMembers(ms)
    ensures var r := MergeMembers(ms, ps);
      Fields(r) == RfcMembers(Fields(ms), ps) && DistinctPathMembers(r)
    decreases ps, 0
  {
    if ps != [] {
      var name, v := ps[0].key, ps[0].value;
      var rest, i := DeleteKey(ms, name), Find(ms, name);
      FindIsField(ms, name);
      var found := if i < |ms| then Some(ms[i].value) else None;
      forall k | 0 <= k < |rest| ensures DistinctPaths(rest[k].value) {
        assert rest[k] == if k < i then ms[k] else ms[k + 1];
      }
      FieldsReplace(ms, name, v);
      if v.Null? {
        if i < |ms| { DistinctWithout(ms, i); }
        MergeMembersIsRfc(rest, ps[1..]);
      } else {
        MergePatchIsRfc(found, v);
        var w := MergePatch(found, v);
        FieldsReplace(ms, name, w);
        MergeMembersIsRfc(rest + [Member(name, w)], ps[1..]);
      }
    }
  }

  // ----- the same on documents: for a patch with distinct keys the order does not matter

  function DocMerge(target: Option<Doc>, patch: Doc): Doc
    decreases patch
  {
    if !patch.DObject? then patch
    else
      var m := if target.Some? && target.value.DObject? then target.value.fields else map[];
      var p := patch.fields;
      DObject(map k | k in m.Keys + p.Keys && !(k in p && p[k].DNull?) ::
        if k in p then DocMerge(Lookup(m, k), p[k]) else m[k])
  }

  lemma {:induction false} RfcMergeIsDocMerge(target: Option<Doc>, patch: Json)
    requires Distinct(patch)
    ensures RfcMerge(target, patch) == DocMerge(target, Abs(patch))
    decreases patch, 1
  {
    if patch.Object? {
      var m := if target.Some? && target.value.DObject? then target.value.fields else map[];
      var r, p := RfcMembers(m, patch.members), Fields(patch.members);
      forall k
        ensures k in r <==> k in m.Keys + p.Keys && !(k in p && p[k].DNull?)
        ensures k in r ==> r[k] == if k in p then DocMerge(Lookup(m, k), p[k]) else m[k]
      {
        RfcMembersAt(m, patch.members, k);
      }
    }
  }

  lemma {:induction false} RfcMembersAt(m: map<string, Doc>, ps: seq<Member<Json>>, k: string)
    requires DistinctMembers(ps)
    ensures var r, p := RfcMembers(m, ps), Fields(ps);
      && (k in r <==> k in m.Keys + p.Keys && !(k in p && p[k].DNull?))
      && (k in r ==> r[k] == if k in p then DocMerge(Lookup(m, k), p[k]) else m[k])
    decreases ps, 0
  {
    if ps != [] {
      var k0, v := Fold(ps[0].key), ps[0].value;
      TailMembers(ps);
      if v.Null? {
        RfcMembersAt(m - {k0}, ps[1..], k);
      } else {
        RfcMergeIsDocMerge(Lookup(m, k0), v);
        RfcMembersAt(m[k0 := RfcMerge(Lookup(m, k0), v)], ps[1..], k);
      }
    }
  }

  // ----- generate_merge_patch

  /** generate_merge_patch; None is the NULL it returns when two objects need no patch. */
  function Generate(from: Json, to: Json): Option<Json>
    decreases Height(from), 1, 0
  {
    if !from.Object? || !to.Object? then Some(to)
    else
      SortedBelow(from.members);
      var ps := GenerateMembers(MergeSort(from.members, false), MergeSort(to.members, false), Height(from));
      if ps == [] then None else Some(Object(ps))
  }

  /** The walk over two lists sorted by folded key; it compares the keys themselves. */
  function GenerateMembers(fs: seq<Member<Json>>, ts: seq<Member<Json>>, ghost h: nat): seq<Member<Json>>
    requires MembersBelow(fs, h)
    decreases h, 0, |fs| + |ts|
  {
    if fs == [] && ts == [] then []
    else if ts == [] || (fs != [] && Less(fs[0].key, ts[0].key)) then
      [Member(fs[0].key, Null)] + GenerateMembers(fs[1..], ts, h)
    else if fs == [] || fs[0].key != ts[0].key then
      [ts[0]] + GenerateMembers(fs, ts[1..], h)
    else
      CompareJsonHeight(fs[0].value, ts[0].value);
      var c := CompareJson(fs[0].value, ts[0].value);
      var patch := if c.same then None else Generate(c.a, c.b);
      (if patch.Some? then [Member(ts[0].key, patch.value)] else []) + GenerateMembers(fs[1..], ts[1..], h)
  }

  /** The same on documents: one entry for every key whose fields differ. */
  function DocGenerate(f: Doc, t: Doc): Option<Doc>
    decreases f, 1
  {
    if !f.DObject? || !t.DObject? then Some(t)
    else
      var p := DocGenerateFields(f, t);
      if p == map[] then None else Some(DObject(p))
  }

  predicate NeedsEntry(f: Doc, t: Doc, k: string)
    requires f.DObject? && t.DObject?
    decreases f, 0, 0
  {
    if k in f.fields && k in t.fields then
      f.fields[k] != t.fields[k] && DocGenerate(f.fields[k], t.fields[k]).Some?
    else k in f.fields || k in t.fields
  }

  function DocGenerateFields(f: Doc, t: Doc): map<string, Doc>
    requires f.DObject? && t.DObject?
    decreases f, 0, 1
  {
    map k | k in f.fields.Keys + t.fields.Keys && NeedsEntry(f, t, k) ::
      if k !in t.fields then DNull
      else if k !in f.fields then t.fields[k]
      else DocGenerate(f.fields[k], t.fields[k]).value
  }

  /** Only equal objects need no patch. */
  lemma {:induction false} NoPatchForEqualOnly(f: Doc, t: Doc)
    ensures DocGenerate(f, t) == None <==> f.DObject? && f == t
    decreases f
  {
    if f.DObject? && t.DObject? {
      var p := DocGenerateFields(f, t);
      forall k | k in f.fields && k in t.fields
        ensures NeedsEntry(f, t, k) <==> f.fields[k] != t.fields[k]
      {
        NoPatchForEqualOnly(f.fields[k], t.fields[k]);
      }
      if p == map[] {
        assert forall k :: k in f.fields.Keys + t.fields.Keys ==> k !in p;
        assert forall k :: k in f.fields.Keys + t.fields.Keys ==> !NeedsEntry(f, t, k);
        assert f.fields == t.fields;
      }
    }
  }

  /** All keys of the tree are in the set. */
  predicate KeysWithin(j: Json, keys: set<string>) {
    match j
    case Array(items) => forall i :: 0 <= i < |items| ==> KeysWithin(items[i], keys)
    case Object(ms) => MembersWithin(ms, keys)
    case _ => true
  }

  predicate MembersWithin(ms: seq<Member<Json>>, keys: set<string>) {
    forall i :: 0 <= i < |ms| ==> ms[i].key in keys && KeysWithin(ms[i].value, keys)
  }

  /** Keys that the walk, by strcmp, orders as the case-insensitive sort does. */
  predicate Concordant(keys: set<string>) {
    forall k, l :: k in keys && l in keys ==> (Less(k, l) <==> Less(Fold(k), Fold(l)))
  }

  lemma SameOrder(keys: set<string>, k: string, l: string)
    requires Concordant(keys) && k in keys && l in keys
    ensures Less(k, l) <==> Less(Fold(k), Fold(l))
    ensures k == l <==> Fold(k) == Fold(l)
  {
    LessTrichotomy(k, l);
    LessTrichotomy(Fold(k), Fold(l));
  }

  lemma {:induction false} CompareJsonWithin(a: Json, b: Json, keys: set<string>)
    requires KeysWithin(a, keys) && KeysWithin(b, keys)
    ensures KeysWithin(CompareJson(a, b).a, keys) && KeysWithin(CompareJson(a, b).b, keys)
    decreases Height(a), 1, 0
  {
    if SameType(a, b) && a.Array? {
      CompareItemsWithin(a.items, b.items, keys);
    } else if SameType(a, b) && a.Object? {
      SortedBelow(a.members);
      WithinSorted(a.members, keys);
      WithinSorted(b.members, keys);
      CompareMembersWithin(MergeSort(a.members, false), MergeSort(b.members, false), Height(a), keys);
    }
  }

  lemma WithinSorted(ms: seq<Member<Json>>, keys: set<string>)
    requires MembersWithin(ms, keys)
    ensures MembersWithin(MergeSort(ms, false), keys)
  {
    var r := MergeSort(ms, false);
    forall i | 0 <= i < |r| ensures r[i].key in keys && KeysWithin(r[i].value, keys) {
      assert r[i] in multiset(ms);
    }
  }

  lemma WithinTail(ms: seq<Member<Json>>, keys: set<string>)
    requires MembersWithin(ms, keys) && ms != []
    ensures MembersWithin(ms[1..], keys) && ms[0].key in keys && KeysWithin(ms[0].value, keys)
  {
    assert forall i :: 0 <= i < |ms| - 1 ==> ms[1..][i] == ms[i + 1];
  }

  lemma WithinCons(m: Member<Json>, ms: seq<Member<Json>>, keys: set<string>)
    requires MembersWithin(ms, keys) && m.key in keys && KeysWithin(m.value, keys)
    ensures MembersWithin([m] + ms, keys)
  {
  }

  lemma {:induction false} CompareItemsWithin(xs: seq<Json>, ys: seq<Json>, keys: set<string>)
    requires KeysWithin(Array(xs), keys) && KeysWithin(Array(ys), keys)
    ensures KeysWithin(Array(CompareItems(xs, ys).a), keys) && KeysWithin(Array(CompareItems(xs, ys).b), keys)
    decreases Height(Array(xs)), 0, |xs|
  {
    if xs != [] && ys != [] {
      ItemIsLower(xs, 0);
      assert forall i :: 0 <= i < |xs| - 1 ==> xs[1..][i] == xs[i + 1];
      assert forall i :: 0 <= i < |ys| - 1 ==> ys[1..][i] == ys[i + 1];
      CompareJsonWithin(xs[0], ys[0], keys);
      CompareItemsWithin(xs[1..], ys[1..], keys);
    }
  }

  lemma {:induction false} CompareMembersWithin(xs: seq<Member<Json>>, ys: seq<Member<Json>>, h: nat, keys: set<string>)
    requires MembersBelow(xs, h) && MembersWithin(xs, keys) && MembersWithin(ys, keys)
    ensures MembersWithin(CompareMembers(xs, ys, h).a, keys) && MembersWithin(CompareMembers(xs, ys, h).b, keys)
    decreases h, 0, |xs|
  {
    if xs != [] && ys != [] && Fold(xs[0].key) == Fold(ys[0].key) {
      WithinTail(xs, keys);
      WithinTail(ys, keys);
      CompareJsonWithin(xs[0].value, ys[0].value, keys);
      CompareMembersWithin(xs[1..], ys[1..], h, keys);
      var c := CompareJson(xs[0].value, ys[0].value);
      var t := if c.same then CompareMembers(xs[1..], ys[1..], h) else Compared(false, xs[1..], ys[1..]);
      WithinCons(xs[0].(value := c.a), t.a, keys);
      WithinCons(ys[0].(value := c.b), t.b, keys);
    }
  }

  /** generate_merge_patch makes one entry for every key whose fields differ. */
  lemma {:induction false} GenerateIsDocGenerate(from: Json, to: Json, keys: set<string>)
    requires Concordant(keys)
    requires Distinct(from) && Distinct(to) && KeysWithin(from, keys) && KeysWithin(to, keys)
    ensures AbsOption(Generate(from, to)) == DocGenerate(Abs(from), Abs(to))
    ensures Generate(from, to).Some? ==> Distinct(Generate(from, to).value)
    decreases Height(from), 1, 0
  {
    if from.Object? && to.Object? {
      var fs, ts := MergeSort(from.members, false), MergeSort(to.members, false);
      SortedBelow(from.members);
      SortedMembers(from.members);
      SortedMembers(to.members);
      WithinSorted(from.members, keys);
      WithinSorted(to.members, keys);
      GenerateMembersIsDoc(fs, ts, Height(from), keys);
      var ps := GenerateMembers(fs, ts, Height(from));
      if ps != [] { assert Fold(ps[0].key) in Fields(ps); }
    }
  }

  ghost predicate Arranged(ms: seq<Member<Json>>) { Ascending(ms) && DistinctMembers(ms) }

  lemma ArrangedTail(ms: seq<Member<Json>>)
    requires Arranged(ms) && ms != []
    ensures Arranged(ms[1..])
  {
    TailMembers(ms);
    assert forall i :: 0 <= i < |ms| - 1 ==> ms[1..][i] == ms[i + 1];
  }

  /** The members left when the least folded key k has been dealt with. */
  function Beyond(ms: seq<Member<Json>>, k: string): seq<Member<Json>> {
    if ms != [] && Fold(ms[0].key) == k then ms[1..] else ms
  }

  lemma BeyondFields(ms: seq<Member<Json>>, k: string)
    requires Arranged(ms) && (ms != [] ==> Fold(ms[0].key) == k || Less(k, Fold(ms[0].key)))
    ensures Fields(Beyond(ms, k)) == Fields(ms) - {k}
    ensures k in Fields(ms) <==> ms != [] && Fold(ms[0].key) == k
    ensures k in Fields(ms) ==> Fields(ms)[k] == Abs(ms[0].value)
  {
    if ms != [] && Fold(ms[0].key) == k { TailMembers(ms); } else { KeyBelow(k, ms); }
  }

  /** The entry of the least folded key, and those of the others. */
  lemma FirstEntry(fs: seq<Member<Json>>, ts: seq<Member<Json>>, k: string)
    requires Arranged(fs) && (fs != [] ==> Fold(fs[0].key) == k || Less(k, Fold(fs[0].key)))
    requires Arranged(ts) && (ts != [] ==> Fold(ts[0].key) == k || Less(k, Fold(ts[0].key)))
    ensures var f, t := DObject(Fields(fs)), DObject(Fields(ts));
      var all, rest := DocGenerateFields(f, t), DocGenerateFields(DObject(Fields(Beyond(fs, k))), DObject(Fields(Beyond(ts, k))));
      && k !in rest && all - {k} == rest
      && (k in all <==> (k in Fields(fs) || k in Fields(ts)) && NeedsEntry(f, t, k))
      && (k in all ==>
            all[k] == (if k !in Fields(ts) then DNull
                       else if k !in Fields(fs) then Fields(ts)[k]
                       else DocGenerate(Fields(fs)[k], Fields(ts)[k]).value))
      && (k in Fields(fs) ==> Fields(fs)[k] == Abs(fs[0].value))
      && (k in Fields(ts) ==> Fields(ts)[k] == Abs(ts[0].value))
      && (k in Fields(fs) <==> fs != [] && Fold(fs[0].key) == k)
      && (k in Fields(ts) <==> ts != [] && Fold(ts[0].key) == k)
  {
    BeyondFields(fs, k);
    BeyondFields(ts, k);
    FieldsSkip(Fields(fs), Fields(ts), k);
    assert k in Fields(fs).Keys + Fields(ts).Keys <==> k in Fields(fs) || k in Fields(ts);
  }

  /** The entries of two member lists, as documents. */
  function Entries(fs: seq<Member<Json>>, ts: seq<Member<Json>>): map<string, Doc> {
    DocGenerateFields(DObject(Fields(fs)), DObject(Fields(ts)))
  }

  lemma EntryRemove(fs: seq<Member<Json>>, ts: seq<Member<Json>>)
    requires Arranged(fs) && Arranged(ts) && fs != []
    requires ts != [] ==> Less(Fold(fs[0].key), Fold(ts[0].key))
    ensures Fold(fs[0].key) !in Entries(fs[1..], ts)
    ensures Entries(fs, ts) == Entries(fs[1..], ts)[Fold(fs[0].key) := DNull]
  {
    var k := Fold(fs[0].key);
    if ts != [] { LessTrichotomy(k, Fold(ts[0].key)); }
    FirstEntry(fs, ts, k);
    assert NeedsEntry(DObject(Fields(fs)), DObject(Fields(ts)), k);
  }

  lemma EntryAdd(fs: seq<Member<Json>>, ts: seq<Member<Json>>)
    requires Arranged(fs) && Arranged(ts) && ts != []
    requires fs != [] ==> Less(Fold(ts[0].key), Fold(fs[0].key))
    ensures Fold(ts[0].key) !in Entries(fs, ts[1..])
    ensures Entries(fs, ts) == Entries(fs, ts[1..])[Fold(ts[0].key) := Abs(ts[0].value)]
  {
    var k := Fold(ts[0].key);
    if fs != [] { LessTrichotomy(k, Fold(fs[0].key)); }
    FirstEntry(fs, ts, k);
    assert NeedsEntry(DObject(Fields(fs)), DObject(Fields(ts)), k);
  }

  lemma EntryPair(fs: seq<Member<Json>>, ts: seq<Member<Json>>)
    requires Arranged(fs) && Arranged(ts) && fs != [] && ts != [] && Fold(fs[0].key) == Fold(ts[0].key)
    ensures var k, rest, p := Fold(ts[0].key), Entries(fs[1..], ts[1..]), DocGenerate(Abs(fs[0].value), Abs(ts[0].value));
      && k !in rest
      && Entries(fs, ts) == if Abs(fs[0].value) == Abs(ts[0].value) || p.None? then rest else rest[k := p.value]
  {
    FirstEntry(fs, ts, Fold(ts[0].key));
  }

  lemma {:induction false} GenerateMembersIsDoc(fs: seq<Member<Json>>, ts: seq<Member<Json>>, h: nat, keys: set<string>)
    requires MembersBelow(fs, h) && Arranged(fs) && Arranged(ts)
    requires Concordant(keys) && MembersWithin(fs, keys) && MembersWithin(ts, keys)
    ensures var ps := GenerateMembers(fs, ts, h);
      Fields(ps) == Entries(fs, ts) && DistinctMembers(ps)
    decreases h, 0, |fs| + |ts|
  {
    hide Less, Fold, Concordant, CompareJson, Generate, Distinct;
    if fs != [] { ArrangedTail(fs); WithinTail(fs, keys); }
    if ts != [] { ArrangedTail(ts); WithinTail(ts, keys); }
    if fs != [] && ts != [] {
      SameOrder(keys, fs[0].key, ts[0].key);
      LessTrichotomy(Fold(fs[0].key), Fold(ts[0].key));
    }
    if fs == [] && ts == [] {
    } else if ts == [] || (fs != [] && Less(fs[0].key, ts[0].key)) {
      EntryRemove(fs, ts);
      GenerateMembersIsDoc(fs[1..], ts, h, keys);
      DistinctMembersCons(Member(fs[0].key, Null), GenerateMembers(fs[1..], ts, h));
    } else if fs == [] || fs[0].key != ts[0].key {
      EntryAdd(fs, ts);
      GenerateMembersIsDoc(fs, ts[1..], h, keys);
      DistinctMembersCons(ts[0], GenerateMembers(fs, ts[1..], h));
    } else {
      GenerateBoth(fs, ts, h, keys);
    }
  }

  lemma {:induction false} GenerateBoth(fs: seq<Member<Json>>, ts: seq<Member<Json>>, h: nat, keys: set<string>)
    requires MembersBelow(fs, h) && Arranged(fs) && Arranged(ts)
    requires Concordant(keys) && MembersWithin(fs, keys) && MembersWithin(ts, keys)
    requires fs != [] && ts != [] && fs[0].key == ts[0].key
    ensures var ps := GenerateMembers(fs, ts, h);
      Fields(ps) == Entries(fs, ts) && DistinctMembers(ps)
    decreases h, 0, |fs| + |ts|, 0
  {
    hide Fold, Concordant, CompareJson, Generate;
    LessTrichotomy(fs[0].key, ts[0].key);
    ArrangedTail(fs);
    ArrangedTail(ts);
    WithinTail(fs, keys);
    WithinTail(ts, keys);
    EntryPair(fs, ts);
    GenerateMembersIsDoc(fs[1..], ts[1..], h, keys);
    var patch := GeneratePair(fs[0], ts[0], h, keys);
    var rest := GenerateMembers(fs[1..], ts[1..], h);
    if patch.Some? {
      DistinctMembersCons(Member(ts[0].key, patch.value), rest);
    } else {
      assert [] + rest == rest;
    }
  }

  /** The entry for a key of both objects. */
  lemma {:induction false} GeneratePair(f: Member<Json>, t: Member<Json>, h: nat, keys: set<string>)
    returns (patch: Option<Json>)
    requires Height(f.value) < h && Concordant(keys)
    requires Distinct(f.value) && Distinct(t.value) && KeysWithin(f.value, keys) && KeysWithin(t.value, keys)
    ensures var c := CompareJson(f.value, t.value);
      patch == if c.same then None else Generate(c.a, c.b)
    ensures patch.Some? <==> Abs(f.value) != Abs(t.value)
    ensures patch.Some? ==> Distinct(patch.value) && DocGenerate(Abs(f.value), Abs(t.value)) == Some(Abs(patch.value))
    decreases h, 0, 0
  {
    var c := CompareJson(f.value, t.value);
    CompareJsonHeight(f.value, t.value);
    CompareJsonDecidesEquality(f.value, t.value);
    CompareJsonWithin(f.value, t.value, keys);
    NoPatchForEqualOnly(Abs(f.value), Abs(t.value));
    patch := if c.same then None else Generate(c.a, c.b);
    if !c.same { GenerateIsDocGenerate(c.a, c.b, keys); }
  }

  /** Entries of other keys do not depend on the fields under k. */
  lemma FieldsSkip(f: map<string, Doc>, t: map<string, Doc>, k: string)
    ensures DocGenerateFields(DObject(f - {k}), DObject(t - {k})) == DocGenerateFields(DObject(f), DObject(t)) - {k}
    ensures k !in f ==> f - {k} == f
    ensures k !in t ==> t - {k} == t
  {
    var p, q := DocGenerateFields(DObject(f - {k}), DObject(t - {k})), DocGenerateFields(DObject(f), DObject(t));
    forall l | l != k
      ensures l in p <==> l in q
      ensures l in p ==> p[l] == q[l]
    {
      assert NeedsEntry(DObject(f), DObject(t), l) == NeedsEntry(DObject(f - {k}), DObject(t - {k}), l);
    }
  }

  // ----- the round trip of merge patches

  /** No null is reached through object members. */
  predicate NoNull(d: Doc) {
    d.DObject? ==> forall k :: k in d.fields ==> !d.fields[k].DNull? && NoNull(d.fields[k])
  }

  /**
   * A merge patch can lead from f to t: wherever the two differ, the target has no null member
   * that the patch would have to write.
   */
  predicate Mergeable(f: Doc, t: Doc) {
    t.DObject? ==>
      if !f.DObject? then NoNull(t)
      else forall k :: k in t.fields ==>
        if k in f.fields then
          f.fields[k] == t.fields[k] || (!t.fields[k].DNull? && Mergeable(f.fields[k], t.fields[k]))
        else !t.fields[k].DNull? && NoNull(t.fields[k])
  }

  /** Merging into nothing, or into something that is no object, drops exactly the nulls. */
  lemma {:induction false} MergeIntoNothing(target: Option<Doc>, t: Doc)
    requires target.Some? ==> !target.value.DObject?
    ensures DocMerge(target, t) == t <==> NoNull(t)
    decreases t
  {
    if t.DObject? {
      var r := DocMerge(target, t).fields;
      forall k | k in t.fields
        ensures k in r <==> !t.fields[k].DNull?
        ensures k in r ==> (r[k] == t.fields[k] <==> NoNull(t.fields[k]))
      {
        assert Lookup(map[], k) == None;
        MergeIntoNothing(None, t.fields[k]);
      }
      assert forall k :: k in r ==> k in t.fields;
    }
  }

  lemma {:induction false} GeneratedPatchMerges(f: Doc, t: Doc)
    requires DocGenerate(f, t).Some?
    ensures DocMerge(Some(f), DocGenerate(f, t).value) == t <==> Mergeable(f, t)
    decreases f
  {
    if t.DObject? {
      if !f.DObject? {
        MergeIntoNothing(Some(f), t);
      } else {
        var p := DocGenerateFields(f, t);
        var r := DocMerge(Some(f), DObject(p)).fields;
        forall k ensures FieldArrives(f, t, r, k) { GeneratedFieldMerges(f, t, k); }
        if Mergeable(f, t) {
          forall k | k in t.fields ensures k in r && r[k] == t.fields[k] {
            assert FieldArrives(f, t, r, k);
          }
          forall k | k in r ensures k in t.fields {
            assert FieldArrives(f, t, r, k);
          }
          assert r == t.fields;
        } else {
          var k :| k in t.fields && !(if k in f.fields then
              f.fields[k] == t.fields[k] || (!t.fields[k].DNull? && Mergeable(f.fields[k], t.fields[k]))
            else !t.fields[k].DNull? && NoNull(t.fields[k]));
          assert FieldArrives(f, t, r, k);
        }
      }
    }
  }

  /** The merged object agrees with the target at k exactly when that field is mergeable. */
  ghost predicate FieldArrives(f: Doc, t: Doc, r: map<string, Doc>, k: string)
    requires f.DObject? && t.DObject?
  {
    if k !in t.fields then k !in r
    else if k in f.fields then
      (k in r && r[k] == t.fields[k] <==>
        f.fields[k] == t.fields[k] || (!t.fields[k].DNull? && Mergeable(f.fields[k], t.fields[k])))
    else (k in r && r[k] == t.fields[k] <==> !t.fields[k].DNull? && NoNull(t.fields[k]))
  }

  lemma {:induction false} GeneratedFieldMerges(f: Doc, t: Doc, k: string)
    requires f.DObject? && t.DObject?
    ensures FieldArrives(f, t, DocMerge(Some(f), DObject(DocGenerateFields(f, t))).fields, k)
    decreases f, 0
  {
    var p := DocGenerateFields(f, t);
    var r := DocMerge(Some(f), DObject(p)).fields;
    if k in t.fields {
      if k in f.fields {
        var a, b := f.fields[k], t.fields[k];
        NoPatchForEqualOnly(a, b);
        if a != b {
          GeneratedPatchMerges(a, b);
          assert k in f.fields.Keys + t.fields.Keys && NeedsEntry(f, t, k);
          assert p[k] == DocGenerate(a, b).value;
        }
      } else {
        MergeIntoNothing(None, t.fields[k]);
        assert k in f.fields.Keys + t.fields.Keys && NeedsEntry(f, t, k);
        assert p[k] == t.fields[k];
      }
    } else if k in f.fields {
      assert k in f.fields.Keys + t.fields.Keys && NeedsEntry(f, t, k);
      assert p[k] == DNull;
    }
  }

  /**
   * The round trip of JSON Merge Patch. Either no patch is made and the documents are equal, or
   * merging the patch into any copy of the first document gives the second exactly when the pair
   * is mergeable.
   */
  lemma MergeRoundTrip(from: Json, to: Json, copy: Json, keys: set<string>)
    requires Concordant(keys)
    requires Distinct(from) && Distinct(to) && KeysWithin(from, keys) && KeysWithin(to, keys)
    requires Distinct(copy) && Abs(copy) == Abs(from)
    ensures var patch := Generate(from, to);
      if patch.None? then Abs(from) == Abs(to)
      else Abs(MergePatch(Some(copy), patch.value)) == Abs(to) <==> Mergeable(Abs(from), Abs(to))
  {
    GenerateIsDocGenerate(from, to, keys);
    NoPatchForEqualOnly(Abs(from), Abs(to));
    var patch := Generate(from, to);
    if patch.Some? {
      DistinctHasDistinctPaths(copy);
      MergePatchIsRfc(Some(copy), patch.value);
      RfcMergeIsDocMerge(Some(Abs(copy)), patch.value);
      GeneratedPatchMerges(Abs(from), Abs(to));
    }
  }

  /**
   * The walk over two keys and the second of them, when strcmp and the folded order put the keys
   * differently: it adds the second key, and then removes both keys of the first list.
   */
  lemma DiscordantWalk(a: Member<Json>, b: Member<Json>, h: nat)
    requires a.value == True && b.value == True && h > 0
    requires Less(Fold(a.key), Fold(b.key)) && !Less(a.key, b.key)
    ensures MergeSort([a, b], false) == [a, b] && MergeSort([b], false) == [b]
    ensures MembersBelow([a, b], h) && GenerateMembers([a, b], [b], h) == [b, Member(a.key, Null), Member(b.key, Null)]
  {
    hide Less, Fold;
    LessTrichotomy(Fold(a.key), Fold(b.key));
    var s := [a, b];
    assert Less(Seen(s[0].key, false), Seen(s[0 + 1].key, false));
    assert StrictlySorted(s, false);
    assert [b][1..] == [] && [a, b][1..] == [b];
    assert GenerateMembers([b], [], h) == [Member(b.key, Null)] + GenerateMembers([], [], h);
    assert GenerateMembers([a, b], [], h) == [Member(a.key, Null)] + GenerateMembers([b], [], h);
  }

  lemma OneMember(m: Member<Json>)
    requires m.value == True
    ensures Fold(m.key) in Fields([m]) && NoNull(DObject(Fields([m])))
  {
    assert Fields([m]) == Fields([m][1..])[Fold(m.key) := DTrue];
  }

  /** The patch from one document to another, if there is one, leads there. */
  predicate Arrives(from: Json, to: Json) {
    var patch := Generate(from, to);
    if patch.None? then Abs(from) == Abs(to) else Abs(MergePatch(Some(from), patch.value)) == Abs(to)
  }

  predicate Pairing(from: Json, to: Json, keys: set<string>) {
    Distinct(from) && Distinct(to) && KeysWithin(from, keys) && KeysWithin(to, keys) && Mergeable(Abs(from), Abs(to))
  }

  lemma DistinctPair(a: Member<Json>, b: Member<Json>)
    requires a.value == True && b.value == True && Fold(a.key) != Fold(b.key)
    ensures Distinct(Object([a, b])) && Distinct(Object([b]))
  {
    hide Fold;
    assert DistinctKeys([a, b]) && DistinctKeys([b]);
    assert Distinct(True);
  }

  lemma DiscordantFails(a: Member<Json>, b: Member<Json>)
    requires a.value == True && b.value == True && Less(Fold(a.key), Fold(b.key)) && !Less(a.key, b.key)
    ensures var from, to := Object([a, b]), Object([b]);
      Distinct(from) && Distinct(to) && Mergeable(Abs(from), Abs(to)) && !Arrives(from, to)
  {
    hide Less, Fold, MergeSort, GenerateMembers, MergePatch, RfcMembers, NoNull, Mergeable;
    LessTrichotomy(Fold(a.key), Fold(b.key));
    var from, to := Object([a, b]), Object([b]);
    DiscordantWalk(a, b, Height(from));
    OneMember(b);
    NoNullIsMergeable(Abs(from), Abs(to));
    DistinctPair(a, b);
    var ps := [b, Member(a.key, Null), Member(b.key, Null)];
    assert Generate(from, to) == Some(Object(ps));
    MergePatchIsRfc(Some(from), Object(ps));
    LastNullRemoves(Fields([a, b]), ps);
    assert ps[|ps| - 1].key == b.key;
    assert Abs(MergePatch(Some(from), Object(ps))) == DObject(RfcMembers(Fields([a, b]), ps));
  }

  /** From {"a": true, "B": true} to {"B": true}. */
  lemma MixedCaseFails()
    ensures var from, to := Object([Member("a", True), Member("B", True)]), Object([Member("B", True)]);
      Mergeable(Abs(from), Abs(to)) && !Arrives(from, to)
  {
    hide Arrives, Mergeable;
    assert Fold("a")[0] == 'a' && Fold("B")[0] == 'b';
    DiscordantFails(Member("a", True), Member("B", True));
  }

  /**
   * Two keys that differ in case only: the walk adds the key of the target, and then removes the
   * key of the source, which is the same one to the merge.
   */
  lemma VariantFails(k: Member<Json>, l: Member<Json>)
    requires k.value == True && l.value == True && Fold(k.key) == Fold(l.key) && Less(k.key, l.key)
    ensures var from, to := Object([l]), Object([k]);
      Distinct(from) && Distinct(to) && Mergeable(Abs(from), Abs(to)) && !Arrives(from, to)
  {
    hide Less, Fold, MergeSort, GenerateMembers, MergePatch, RfcMembers, NoNull, Mergeable;
    LessTrichotomy(k.key, l.key);
    var from, to := Object([l]), Object([k]);
    var ps := [k, Member(l.key, Null)];
    VariantWalk(k, l, Height(from));
    OneMember(k);
    NoNullIsMergeable(Abs(from), Abs(to));
    DistinctOne(k);
    DistinctOne(l);
    assert Generate(from, to) == Some(Object(ps));
    MergePatchIsRfc(Some(from), Object(ps));
    LastNullRemoves(Fields([l]), ps);
    assert ps[|ps| - 1].key == l.key;
    assert Abs(MergePatch(Some(from), Object(ps))) == DObject(RfcMembers(Fields([l]), ps));
  }

  lemma DistinctOne(m: Member<Json>)
    requires m.value == True
    ensures Distinct(Object([m]))
  {
    assert Distinct(True);
  }

  lemma VariantWalk(k: Member<Json>, l: Member<Json>, h: nat)
    requires k.value == True && l.value == True && h > 0 && Less(k.key, l.key)
    ensures MergeSort([l], false) == [l] && MergeSort([k], false) == [k]
    ensures MembersBelow([l], h) && GenerateMembers([l], [k], h) == [k, Member(l.key, Null)]
  {
    hide Less, Fold;
    LessTrichotomy(k.key, l.key);
    assert [k][1..] == [] && [l][1..] == [];
    assert GenerateMembers([l], [], h) == [Member(l.key, Null)] + GenerateMembers([], [], h);
  }

  /** From {"a": true} to {"A": true}. */
  lemma CaseVariantFails()
    ensures var from, to := Object([Member("a", True)]), Object([Member("A", True)]);
      Mergeable(Abs(from), Abs(to)) && !Arrives(from, to)
  {
    hide Arrives, Mergeable;
    assert Fold("a") == Fold("A");
    VariantFails(Member("A", True), Member("a", True));
  }

  /** From {} to {"a": null}: the patch removes what it should set. */
  lemma NullMemberFails()
    ensures var from, to := Object([]), Object([Member("a", Null)]);
      !Mergeable(Abs(from), Abs(to)) && !Arrives(from, to)
  {
    hide Fold, MergeSort, GenerateMembers, MergePatch, RfcMembers;
    var m := Member("a", Null);
    var from, to := Object([]), Object([m]);
    NullWalk(m, Height(from));
    NullField(m);
    assert Generate(from, to) == Some(to);
    MergePatchIsRfc(Some(from), to);
    LastNullRemoves(map[], [m]);
    assert [m][|[m]| - 1].key == "a";
    assert Abs(MergePatch(Some(from), to)) == DObject(RfcMembers(Fields([]), [m]));
  }

  lemma NullField(m: Member<Json>)
    requires m.value == Null
    ensures Fields([m]) == map[Fold(m.key) := DNull] && DistinctPaths(Object([]))
    ensures !Mergeable(DObject(map[]), DObject(Fields([m])))
  {
    assert Fields([m]) == Fields([m][1..])[Fold(m.key) := DNull];
    assert Fold(m.key) in Fields([m]);
  }

  lemma NullWalk(m: Member<Json>, h: nat)
    ensures MergeSort<Json>([], false) == [] && MergeSort([m], false) == [m]
    ensures MembersBelow([], h) && GenerateMembers([], [m], h) == [m]
  {
    assert [m][1..] == [];
    assert GenerateMembers([], [m], h) == [m] + GenerateMembers([], [m][1..], h);
  }

  /**
   * For any set of keys: every mergeable pair of documents with these keys is led from one to the
   * other if and only if strcmp and the folded order put the keys alike.
   */
  lemma ArrivesExactlyWhenConcordant(keys: set<string>)
    ensures Concordant(keys) <==> forall from, to :: Pairing(from, to, keys) ==> Arrives(from, to)
  {
    hide Arrives, Pairing, Less, Fold;
    if Concordant(keys) {
      forall from, to | Pairing(from, to, keys) ensures Arrives(from, to) { ConcordantArrives(from, to, keys); }
    } else {
      var k, l := DiscordantKeys(keys);
      if Fold(k) == Fold(l) { VariantPairing(k, l, keys); } else { DiscordantPairing(k, l, keys); }
    }
  }

  lemma ConcordantArrives(from: Json, to: Json, keys: set<string>)
    requires Concordant(keys) && Pairing(from, to, keys)
    ensures Arrives(from, to)
  {
    hide Concordant, Generate, MergePatch, Mergeable, KeysWithin, Distinct, Abs;
    MergeRoundTrip(from, to, from, keys);
  }

  lemma DiscordantPairing(k: string, l: string, keys: set<string>)
    requires k in keys && l in keys && Less(Fold(k), Fold(l)) && !Less(k, l)
    ensures exists from, to :: Pairing(from, to, keys) && !Arrives(from, to)
  {
    hide Arrives, Less, Fold, KeysWithin, Mergeable, Distinct, Abs;
    var from, to := Object([Member(k, True), Member(l, True)]), Object([Member(l, True)]);
    DiscordantFails(Member(k, True), Member(l, True));
    WithinTwo(k, l, keys);
    assert Pairing(from, to, keys);
  }

  lemma VariantPairing(k: string, l: string, keys: set<string>)
    requires k in keys && l in keys && Fold(k) == Fold(l) && Less(k, l)
    ensures exists from, to :: Pairing(from, to, keys) && !Arrives(from, to)
  {
    hide Arrives, Less, Fold, KeysWithin, Mergeable, Distinct, Abs;
    var from, to := Object([Member(l, True)]), Object([Member(k, True)]);
    VariantFails(Member(k, True), Member(l, True));
    WithinTwo(k, l, keys);
    WithinTwo(l, k, keys);
    assert Pairing(from, to, keys);
  }

  lemma WithinTwo(k: string, l: string, keys: set<string>)
    requires k in keys && l in keys
    ensures KeysWithin(Object([Member(k, True), Member(l, True)]), keys) && KeysWithin(Object([Member(l, True)]), keys)
  {
    assert KeysWithin(True, keys);
  }

  lemma DiscordantKeys(keys: set<string>) returns (k: string, l: string)
    requires !Concordant(keys)
    ensures k in keys && l in keys
    ensures if Fold(k) == Fold(l) then Less(k, l) else Less(Fold(k), Fold(l)) && !Less(k, l)
  {
    k, l :| k in keys && l in keys && Less(k, l) != Less(Fold(k), Fold(l));
    LessTrichotomy(k, l);
    LessTrichotomy(Fold(k), Fold(l));
    if Less(k, l) && Fold(k) != Fold(l) {
      k, l := l, k;
    }
  }

  lemma {:induction false} LastNullRemoves(m: map<string, Doc>, ps: seq<Member<Json>>)
    requires ps != [] && ps[|ps| - 1].value.Null?
    ensures Fold(ps[|ps| - 1].key) !in RfcMembers(m, ps)
    decreases |ps|
  {
    hide Fold, RfcMerge;
    var k := Fold(ps[0].key);
    if |ps| == 1 {
      assert ps[1..] == [];
    } else if ps[0].value.Null? {
      LastNullRemoves(m - {k}, ps[1..]);
    } else {
      LastNullRemoves(m[k := RfcMerge(Lookup(m, k), ps[0].value)], ps[1..]);
    }
  }

  /** A target without nulls under its object members is always reached. */
  lemma {:induction false} NoNullIsMergeable(f: Doc, t: Doc)
    requires NoNull(t)
    ensures Mergeable(f, t)
    decreases t
  {
    if t.DObject? && f.DObject? {
      forall k | k in t.fields && k in f.fields ensures Mergeable(f.fields[k], t.fields[k]) {
        NoNullIsMergeable(f.fields[k], t.fields[k]);
      }
    }
  }
}
