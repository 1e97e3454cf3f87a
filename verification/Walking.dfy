// The loops of cJSON_Utils.c that walk one or two lists of children, on documents held as values:
// each computes the function that the theorems are about.
module Walking {
  import opened Texts
  import opened Documents
  import opened Sorting
  import opened Comparing
  import opened Pointers
  import opened Diffing
  import opened Merging

  /** compare_strings, case-insensitive. */
  function Order(a: string, b: string): int {
    if Less(Fold(a), Fold(b)) then -1 else if Fold(a) == Fold(b) then 0 else 1
  }

  lemma OrderIsFoldedOrder(a: string, b: string)
    ensures Order(a, b) < 0 <==> Less(Fold(a), Fold(b))
    ensures Order(a, b) == 0 <==> Fold(a) == Fold(b)
    ensures Order(a, b) > 0 <==> Less(Fold(b), Fold(a))
  {
    LessTrichotomy(Fold(a), Fold(b));
  }

  // ----- compare_json

  /** Children already compared, in front of the result for the others. */
  function Behind<T>(a: seq<T>, b: seq<T>, r: Compared<seq<T>>): Compared<seq<T>> {
    Compared(r.same, a + r.a, b + r.b)
  }

  lemma NothingBehind<T>(r: Compared<seq<T>>)
    ensures Behind([], [], r) == r
  {
    assert [] + r.a == r.a && [] + r.b == r.b;
  }

  lemma OneMoreBehind<T>(a: seq<T>, b: seq<T>, x: T, y: T, r: Compared<seq<T>>)
    ensures Behind(a, b, Behind([x], [y], r)) == Behind(a + [x], b + [y], r)
  {
    assert a + ([x] + r.a) == a + [x] + r.a && b + ([y] + r.b) == b + [y] + r.b;
  }

  lemma CompareItemsStep(xs: seq<Json>, ys: seq<Json>)
    requires xs != [] && ys != []
    ensures var c := CompareJson(xs[0], ys[0]);
      CompareItems(xs, ys) ==
        Behind([c.a], [c.b], if c.same then CompareItems(xs[1..], ys[1..]) else Compared(false, xs[1..], ys[1..]))
  {
  }

  method CompareJsonTrees(a: Json, b: Json) returns (r: Compared<Json>)
    ensures r == CompareJson(a, b)
    decreases Height(a), 1
  {
    if !SameType(a, b) {
      return Compared(false, a, b);
    }
    match a {
      case Number(i, d) =>
        return Compared(i == b.valueint && d == b.valuedouble, a, b);
      case String(s) =>
        return Compared(s == b.text, a, b);
      case Array(items) =>
        var l := CompareArrays(items, b.items);
        return Compared(l.same, Array(l.a), Array(l.b));
      case Object(ms) =>
        SortedBelow(ms);
        var l := CompareObjects(MergeSort(ms, false), MergeSort(b.members, false), Height(a));
        return Compared(l.same, Object(l.a), Object(l.b));
      case _ =>
        return Compared(true, a, b);
    }
  }

  method CompareArrays(xs: seq<Json>, ys: seq<Json>) returns (r: Compared<seq<Json>>)
    ensures r == CompareItems(xs, ys)
    decreases Height(Array(xs)), 0
  {
    hide CompareJson, CompareItems, Height;
    var i, a, b := 0, [], [];
    NothingBehind(CompareItems(xs, ys));
    assert xs[0..] == xs && ys[0..] == ys;
    while i < |xs| && i < |ys|
      invariant 0 <= i <= |xs| && i <= |ys|
      invariant CompareItems(xs, ys) == Behind(a, b, CompareItems(xs[i..], ys[i..]))
    {
      ItemIsLower(xs, i);
      var c := CompareJsonTrees(xs[i], ys[i]);
      assert xs[i..][0] == xs[i] && xs[i..][1..] == xs[i + 1..] && ys[i..][0] == ys[i] && ys[i..][1..] == ys[i + 1..];
      CompareItemsStep(xs[i..], ys[i..]);
      OneMoreBehind(a, b, c.a, c.b, if c.same then CompareItems(xs[i + 1..], ys[i + 1..]) else Compared(false, xs[i + 1..], ys[i + 1..]));
      a, b, i := a + [c.a], b + [c.b], i + 1;
      if !c.same {
        return Compared(false, a + xs[i..], b + ys[i..]);
      }
    }
    CompareItemsEnd(xs[i..], ys[i..]);
    return Compared(i == |xs| && i == |ys|, a + xs[i..], b + ys[i..]);
  }

  lemma CompareItemsEnd(xs: seq<Json>, ys: seq<Json>)
    requires xs == [] || ys == []
    ensures CompareItems(xs, ys) == Compared(xs == [] && ys == [], xs, ys)
  {
  }

  lemma CompareMembersStep(xs: seq<Member<Json>>, ys: seq<Member<Json>>, h: nat)
    requires MembersBelow(xs, h)
    ensures xs == [] || ys == [] ==> CompareMembers(xs, ys, h) == Compared(xs == [] && ys == [], xs, ys)
    ensures xs != [] && ys != [] && Fold(xs[0].key) != Fold(ys[0].key) ==> CompareMembers(xs, ys, h) == Compared(false, xs, ys)
    ensures xs != [] && ys != [] && Fold(xs[0].key) == Fold(ys[0].key) ==>
      var c := CompareJson(xs[0].value, ys[0].value);
      CompareMembers(xs, ys, h) ==
        Behind([xs[0].(value := c.a)], [ys[0].(value := c.b)],
               if c.same then CompareMembers(xs[1..], ys[1..], h) else Compared(false, xs[1..], ys[1..]))
  {
  }

  method CompareObjects(xs: seq<Member<Json>>, ys: seq<Member<Json>>, ghost h: nat) returns (r: Compared<seq<Member<Json>>>)
    requires MembersBelow(xs, h)
    ensures r == CompareMembers(xs, ys, h)
    decreases h, 0
  {
    hide CompareJson, CompareMembers, Height, Less, Fold;
    var i, a, b := 0, [], [];
    NothingBehind(CompareMembers(xs, ys, h));
    assert xs[0..] == xs && ys[0..] == ys;
    while i < |xs| && i < |ys|
      invariant 0 <= i <= |xs| && i <= |ys| && MembersBelow(xs[i..], h)
      invariant CompareMembers(xs, ys, h) == Behind(a, b, CompareMembers(xs[i..], ys[i..], h))
    {
      assert xs[i..][0] == xs[i] && xs[i..][1..] == xs[i + 1..] && ys[i..][0] == ys[i] && ys[i..][1..] == ys[i + 1..];
      CompareMembersStep(xs[i..], ys[i..], h);
      OrderIsFoldedOrder(xs[i].key, ys[i].key);
      if Order(xs[i].key, ys[i].key) != 0 {
        return Compared(false, a + xs[i..], b + ys[i..]);
      }
      var c := CompareJsonTrees(xs[i].value, ys[i].value);
      var x, y := xs[i].(value := c.a), ys[i].(value := c.b);
      OneMoreBehind(a, b, x, y, if c.same then CompareMembers(xs[i + 1..], ys[i + 1..], h) else Compared(false, xs[i + 1..], ys[i + 1..]));
      a, b, i := a + [x], b + [y], i + 1;
      if !c.same {
        return Compared(false, a + xs[i..], b + ys[i..]);
      }
    }
    CompareMembersStep(xs[i..], ys[i..], h);
    return Compared(i == |xs| && i == |ys|, a + xs[i..], b + ys[i..]);
  }

  // ----- create_patches

  /** The array of patches that create_patches appends to; stale: what the memory of new paths held before. */
  class PatchArray {
    var patches: seq<Json>
    const stale: char

    constructor (stale: char)
      ensures patches == [] && this.stale == stale
    {
      patches := [];
      this.stale := stale;
    }

    /** compose_patch. */
    method ComposePatch(operation: string, path: string, suffix: Option<string>, value: Option<Json>)
      modifies this
      ensures patches == old(patches) + [Compose(operation, FullPath(path, suffix, stale), value)]
    {
      var fields := [Member("op", String(operation))];
      if suffix.None? {
        fields := fields + [Member("path", String(path))];
      } else {
        fields := fields + [Member("path", String(path + "/" + Encode(suffix.value, stale)))];
      }
      if value.Some? {
        fields := fields + [Member("value", value.value)];
      }
      assert fields[..2] == [Member("op", String(operation)), Member("path", String(FullPath(path, suffix, stale)))];
      assert value.None? ==> fields == fields[..2];
      patches := patches + [Object(fields)];
    }

    /** create_patches. */
    method Create(path: string, from: Json, to: Json)
      modifies this
      ensures patches == old(patches) + CreatePatches(path, from, to, stale)
      decreases Height(from), 1, 0
    {
      if !SameType(from, to) {
        ComposePatch("replace", path, None, Some(to));
        return;
      }
      match from {
        case Number(i, d) =>
          if i != to.valueint || d != to.valuedouble {
            ComposePatch("replace", path, None, Some(to));
          }
        case String(s) =>
          if s != to.text {
            ComposePatch("replace", path, None, Some(to));
          }
        case Array(items) =>
          CreateForArrays(path, items, to.items);
        case Object(ms) =>
          SortedBelow(ms);
          CreateForObjects(path, MergeSort(ms, false), MergeSort(to.members, false), Height(from));
        case _ =>
      }
    }

    method CreateForArrays(path: string, fs: seq<Json>, ts: seq<Json>)
      modifies this
      ensures patches == old(patches) + ArrayPatches(path, fs, ts, 0, stale)
      decreases Height(Array(fs)), 0, 0
    {
      hide CreatePatches, ArrayPatches, Height, Decimal, Compose, FullPath;
      var index := 0;
      ghost var goal := patches + ArrayPatches(path, fs, ts, 0, stale);
      assert fs[0..] == fs && ts[0..] == ts;
      while index < |fs| && index < |ts|
        invariant 0 <= index <= |fs| && index <= |ts|
        invariant patches + ArrayPatches(path, fs[index..], ts[index..], index, stale) == goal
      {
        ItemIsLower(fs, index);
        ArrayPatchesStep(path, fs[index..], ts[index..], index, stale, patches);
        Create(path + "/" + Decimal(index), fs[index], ts[index]);
        index := index + 1;
      }
      var left := index;
      while left < |fs|
        invariant index <= left <= |fs| && index <= |ts| && (left < |fs| ==> index == |ts|)
        invariant patches + ArrayPatches(path, fs[left..], ts[index..], index, stale) == goal
      {
        ArrayPatchesStep(path, fs[left..], ts[index..], index, stale, patches);
        ComposePatch("remove", path, Some(Decimal(index)), None);
        left := left + 1;
      }
      assert fs[left..] == [];
      while index < |ts|
        invariant 0 <= index <= |ts|
        invariant patches + ArrayPatches(path, [], ts[index..], index, stale) == goal
      {
        ArrayPatchesStep(path, [], ts[index..], index, stale, patches);
        ComposePatch("add", path, Some("-"), Some(ts[index]));
        index := index + 1;
      }
      assert ts[index..] == [];
      ArrayPatchesStep(path, [], [], index, stale, patches);
    }

    method CreateForObjects(path: string, fs: seq<Member<Json>>, ts: seq<Member<Json>>, ghost h: nat)
      requires MembersBelow(fs, h)
      modifies this
      ensures patches == old(patches) + ObjectPatches(path, fs, ts, stale, h)
      decreases h, 0, 0
    {
      hide CreatePatches, ObjectPatches, Height, Compose, FullPath, Less, Fold;
      var i, j := 0, 0;
      ghost var goal := patches + ObjectPatches(path, fs, ts, stale, h);
      assert fs[0..] == fs && ts[0..] == ts;
      while i < |fs| || j < |ts|
        invariant 0 <= i <= |fs| && 0 <= j <= |ts|
        invariant MembersBelow(fs[i..], h) && patches + ObjectPatches(path, fs[i..], ts[j..], stale, h) == goal
        decreases |fs| - i + |ts| - j
      {
        var diff := if i == |fs| then 1 else if j == |ts| then -1 else Order(fs[i].key, ts[j].key);
        ObjectPatchesStep(path, fs[i..], ts[j..], stale, h, patches);
        if i < |fs| && j < |ts| { OrderIsFoldedOrder(fs[i].key, ts[j].key); }
        if diff == 0 {
          Create(FullPath(path, Some(fs[i].key), stale), fs[i].value, ts[j].value);
          i, j := i + 1, j + 1;
        } else if diff < 0 {
          ComposePatch("remove", path, Some(fs[i].key), None);
          i := i + 1;
        } else {
          ComposePatch("add", path, Some(ts[j].key), Some(ts[j].value));
          j := j + 1;
        }
      }
      assert fs[i..] == [] && ts[j..] == [];
      ObjectPatchesStep(path, [], [], stale, h, patches);
    }
  }

  lemma ArrayPatchesStep(path: string, fs: seq<Json>, ts: seq<Json>, i: nat, stale: char, ps: seq<Json>)
    ensures fs != [] && ts != [] ==>
      (ps + ArrayPatches(path, fs, ts, i, stale) ==
       ps + CreatePatches(path + "/" + Decimal(i), fs[0], ts[0], stale) + ArrayPatches(path, fs[1..], ts[1..], i + 1, stale))
    ensures fs != [] && ts == [] ==>
      (ps + ArrayPatches(path, fs, ts, i, stale) ==
       ps + [Compose("remove", FullPath(path, Some(Decimal(i)), stale), None)] + ArrayPatches(path, fs[1..], ts, i, stale))
    ensures fs == [] && ts != [] ==>
      (ps + ArrayPatches(path, fs, ts, i, stale) ==
       ps + [Compose("add", FullPath(path, Some("-"), stale), Some(ts[0]))] + ArrayPatches(path, fs, ts[1..], i + 1, stale))
    ensures fs == [] && ts == [] ==> ps + ArrayPatches(path, fs, ts, i, stale) == ps
  {
    if fs != [] && ts != [] {
      Assoc(ps, CreatePatches(path + "/" + Decimal(i), fs[0], ts[0], stale), ArrayPatches(path, fs[1..], ts[1..], i + 1, stale));
    } else if fs != [] {
      Assoc(ps, [Compose("remove", FullPath(path, Some(Decimal(i)), stale), None)], ArrayPatches(path, fs[1..], ts, i, stale));
    } else if ts != [] {
      Assoc(ps, [Compose("add", FullPath(path, Some("-"), stale), Some(ts[0]))], ArrayPatches(path, fs, ts[1..], i + 1, stale));
    }
  }

  lemma ObjectPatchesStep(path: string, fs: seq<Member<Json>>, ts: seq<Member<Json>>, stale: char, h: nat, ps: seq<Json>)
    requires MembersBelow(fs, h)
    ensures fs == [] && ts == [] ==> ps + ObjectPatches(path, fs, ts, stale, h) == ps
    ensures fs != [] && (ts == [] || Less(Fold(fs[0].key), Fold(ts[0].key))) ==>
      (ps + ObjectPatches(path, fs, ts, stale, h) ==
       ps + [Compose("remove", FullPath(path, Some(fs[0].key), stale), None)] + ObjectPatches(path, fs[1..], ts, stale, h))
    ensures ts != [] && (fs == [] || Less(Fold(ts[0].key), Fold(fs[0].key))) ==>
      (ps + ObjectPatches(path, fs, ts, stale, h) ==
       ps + [Compose("add", FullPath(path, Some(ts[0].key), stale), Some(ts[0].value))] + ObjectPatches(path, fs, ts[1..], stale, h))
    ensures fs != [] && ts != [] && Fold(fs[0].key) == Fold(ts[0].key) ==>
      (ps + ObjectPatches(path, fs, ts, stale, h) ==
       ps + CreatePatches(FullPath(path, Some(fs[0].key), stale), fs[0].value, ts[0].value, stale)
      + ObjectPatches(path, fs[1..], ts[1..], stale, h))
  {
    if fs != [] && ts != [] { LessTrichotomy(Fold(fs[0].key), Fold(ts[0].key)); }
    if fs != [] {
      Assoc(ps, [Compose("remove", FullPath(path, Some(fs[0].key), stale), None)], ObjectPatches(path, fs[1..], ts, stale, h));
    }
    if ts != [] {
      Assoc(ps, [Compose("add", FullPath(path, Some(ts[0].key), stale), Some(ts[0].value))], ObjectPatches(path, fs, ts[1..], stale, h));
    }
    if fs != [] && ts != [] {
      Assoc(ps, CreatePatches(FullPath(path, Some(fs[0].key), stale), fs[0].value, ts[0].value, stale),
           ObjectPatches(path, fs[1..], ts[1..], stale, h));
    }
  }

  // ----- merge_patch and generate_merge_patch

  method MergeInto(target: Option<Json>, patch: Json) returns (merged: Json)
    ensures merged == MergePatch(target, patch)
    decreases patch
  {
    if !patch.Object? {
      return patch;
    }
    var members := if target.Some? && target.value.Object? then target.value.members else [];
    var i, ps := 0, patch.members;
    ghost var goal := MergeMembers(members, ps);
    assert ps[0..] == ps;
    while i < |ps|
      invariant 0 <= i <= |ps| && MergeMembers(members, ps[i..]) == goal
    {
      assert ps[i..][0] == ps[i] && ps[i..][1..] == ps[i + 1..];
      var name := ps[i].key;
      if ps[i].value.Null? {
        members := DeleteKey(members, name);
      } else {
        var at := Find(members, name);
        var detached := if at < |members| then Some(members[at].value) else None;
        members := DeleteKey(members, name);
        var replacement := MergeInto(detached, ps[i].value);
        members := members + [Member(name, replacement)];
      }
      i := i + 1;
    }
    return Object(members);
  }

  lemma GenerateMembersStep(fs: seq<Member<Json>>, ts: seq<Member<Json>>, h: nat, ps: seq<Member<Json>>)
    requires MembersBelow(fs, h)
    ensures fs == [] && ts == [] ==> ps + GenerateMembers(fs, ts, h) == ps
    ensures fs != [] && (ts == [] || Less(fs[0].key, ts[0].key)) ==>
      ps + GenerateMembers(fs, ts, h) == ps + [Member(fs[0].key, Null)] + GenerateMembers(fs[1..], ts, h)
    ensures ts != [] && (fs == [] || Less(ts[0].key, fs[0].key)) ==>
      ps + GenerateMembers(fs, ts, h) == ps + [ts[0]] + GenerateMembers(fs, ts[1..], h)
    ensures fs != [] && ts != [] && fs[0].key == ts[0].key ==>
      ps + GenerateMembers(fs, ts, h) == ps + MemberPatch(fs[0].value, ts[0]) + GenerateMembers(fs[1..], ts[1..], h)
  {
    if fs != [] && ts != [] { LessTrichotomy(fs[0].key, ts[0].key); }
    if fs != [] { Assoc(ps, [Member(fs[0].key, Null)], GenerateMembers(fs[1..], ts, h)); }
    if ts != [] { Assoc(ps, [ts[0]], GenerateMembers(fs, ts[1..], h)); }
    if fs != [] && ts != [] { Assoc(ps, MemberPatch(fs[0].value, ts[0]), GenerateMembers(fs[1..], ts[1..], h)); }
  }

  /** What a member that both documents have adds to the patch. */
  function MemberPatch(f: Json, t: Member<Json>): seq<Member<Json>> {
    var c := CompareJson(f, t.value);
    var patch := if c.same then None else Generate(c.a, c.b);
    if patch.Some? then [Member(t.key, patch.value)] else []
  }

  method GenerateMergePatch(from: Json, to: Json) returns (patch: Option<Json>)
    ensures patch == Generate(from, to)
    decreases Height(from), 1
  {
    if !from.Object? || !to.Object? {
      return Some(to);
    }
    SortedBelow(from.members);
    var entries := GenerateEntries(MergeSort(from.members, false), MergeSort(to.members, false), Height(from));
    if entries == [] {
      return None;
    }
    return Some(Object(entries));
  }

  method GenerateEntries(fs: seq<Member<Json>>, ts: seq<Member<Json>>, ghost h: nat) returns (entries: seq<Member<Json>>)
    requires MembersBelow(fs, h)
    ensures entries == GenerateMembers(fs, ts, h)
    decreases h, 0
  {
    hide GenerateMembers, Generate, Less, CompareJson, Height;
    var i, j := 0, 0;
    entries := [];
    ghost var goal := GenerateMembers(fs, ts, h);
    assert fs[0..] == fs && ts[0..] == ts && [] + goal == goal;
    while i < |fs| || j < |ts|
      invariant 0 <= i <= |fs| && 0 <= j <= |ts|
      invariant MembersBelow(fs[i..], h) && entries + GenerateMembers(fs[i..], ts[j..], h) == goal
      decreases |fs| - i + |ts| - j
    {
      // strcmp, although both lists are sorted by folded key
      var less := i < |fs| && (j == |ts| || Less(fs[i].key, ts[j].key));
      GenerateMembersStep(fs[i..], ts[j..], h, entries);
      if i < |fs| && j < |ts| { LessTrichotomy(fs[i].key, ts[j].key); }
      if less {
        entries := entries + [Member(fs[i].key, Null)];
        i := i + 1;
      } else if i == |fs| || fs[i].key != ts[j].key {
        entries := entries + [ts[j]];
        j := j + 1;
      } else {
        CompareJsonHeight(fs[i].value, ts[j].value);
        var c := CompareJsonTrees(fs[i].value, ts[j].value);
        if !c.same {
          var patch := GenerateMergePatch(c.a, c.b);
          if patch.Some? {
            entries := entries + [Member(ts[j].key, patch.value)];
          }
        }
        i, j := i + 1, j + 1;
      }
    }
    assert fs[i..] == [] && ts[j..] == [];
    GenerateMembersStep([], [], h, entries);
  }
}
