// JSON documents as cJSON holds them, and the abstract document they stand for.
module Documents {
  import opened Texts

  datatype Option<+T> = None | Some(value: T)

  /** A child together with its key, in list order. */
  datatype Member<T> = Member(key: string, value: T)

  /** A cJSON tree: the type tag decides which field counts, children are kept in list order. */
  datatype Json =
    | Invalid
    | Null
    | False
    | True
    | Number(valueint: int, valuedouble: real)
    | String(text: string)
    | Array(items: seq<Json>)
    | Object(members: seq<Member<Json>>)

  /** The document meant: members have no order, and keys differing in case only are one key. */
  datatype Doc =
    | DInvalid
    | DNull
    | DFalse
    | DTrue
    | DNumber(valueint: int, valuedouble: real)
    | DString(text: string)
    | DArray(items: seq<Doc>)
    | DObject(fields: map<string, Doc>)

  function Abs(j: Json): Doc {
    match j
    case Invalid => DInvalid
    case Null => DNull
    case False => DFalse
    case True => DTrue
    case Number(i, d) => DNumber(i, d)
    case String(s) => DString(s)
    case Array(items) => DArray(seq(|items|, i requires 0 <= i < |items| => Abs(items[i])))
    case Object(ms) => DObject(Fields(ms))
  }

  /** The first member with a key is the one a lookup finds. */
  function Fields(ms: seq<Member<Json>>): map<string, Doc> {
    if ms == [] then map[] else Fields(ms[1..])[Fold(ms[0].key) := Abs(ms[0].value)]
  }

  /** The abstract elements of an array. */
  function Elements(items: seq<Json>): (ds: seq<Doc>)
    ensures DArray(ds) == Abs(Array(items))
    ensures |ds| == |items| && forall i :: 0 <= i < |items| ==> ds[i] == Abs(items[i])
  {
    Abs(Array(items)).items
  }

  predicate DistinctKeys<T>(ms: seq<Member<T>>) {
    forall i, j :: 0 <= i < j < |ms| ==> Fold(ms[i].key) != Fold(ms[j].key)
  }

  /** No object of the tree has two members whose keys fold to the same key. */
  predicate Distinct(j: Json) {
    match j
    case Array(items) => forall i :: 0 <= i < |items| ==> Distinct(items[i])
    case Object(ms) => DistinctMembers(ms)
    case _ => true
  }

  predicate DistinctMembers(ms: seq<Member<Json>>) {
    DistinctKeys(ms) && forall i :: 0 <= i < |ms| ==> Distinct(ms[i].value)
  }

  // ----- lookups

  predicate HasKey<T>(ms: seq<Member<T>>, key: string) {
    exists i :: 0 <= i < |ms| && Fold(ms[i].key) == Fold(key)
  }

  /** get_object_item, case-insensitive: the first member whose key folds like name. */
  function Find<T>(ms: seq<Member<T>>, name: string): (i: nat)
    ensures i <= |ms|
    ensures forall k :: 0 <= k < i ==> Fold(ms[k].key) != Fold(name)
    ensures i < |ms| ==> Fold(ms[i].key) == Fold(name)
  {
    if ms == [] || Fold(ms[0].key) == Fold(name) then 0
    else
      var r := Find(ms[1..], name);
      assert forall k :: 1 <= k < |ms| ==> ms[k] == ms[1..][k - 1];
      1 + r
  }

  /** cJSON_GetObjectItem: only the members of an object have keys to match. */
  function GetObjectItem(j: Json, name: string): Option<Json> {
    if j.Object? && Find(j.members, name) < |j.members| then Some(j.members[Find(j.members, name)].value) else None
  }

  /** Detaching the item at index i from a list. */
  function Without<T>(s: seq<T>, i: nat): seq<T>
    requires i < |s|
  {
    s[..i] + s[i + 1..]
  }

  /** cJSON_DeleteItemFromObject: the first matching member goes, if there is one. */
  function DeleteKey<T>(ms: seq<Member<T>>, name: string): seq<Member<T>> {
    var i := Find(ms, name);
    if i < |ms| then Without(ms, i) else ms
  }

  // ----- how list edits look on the abstract fields

  lemma {:induction false} FieldsAt(ms: seq<Member<Json>>, i: nat)
    requires i < |ms|
    requires forall k :: 0 <= k < i ==> Fold(ms[k].key) != Fold(ms[i].key)
    ensures Fold(ms[i].key) in Fields(ms) && Fields(ms)[Fold(ms[i].key)] == Abs(ms[i].value)
  {
    if i > 0 {
      assert ms[0].key != ms[i].key;
      FieldsAt(ms[1..], i - 1);
    }
  }

  lemma {:induction false} FieldsKeys(ms: seq<Member<Json>>, k: string)
    ensures k in Fields(ms) <==> exists i :: 0 <= i < |ms| && Fold(ms[i].key) == k
  {
    if ms != [] {
      FieldsKeys(ms[1..], k);
      if i :| 0 <= i < |ms| && Fold(ms[i].key) == k {
        assert i > 0 ==> ms[1..][i - 1] == ms[i];
      }
      if i :| 0 <= i < |ms| - 1 && Fold(ms[1..][i].key) == k {
        assert ms[i + 1] == ms[1..][i];
      }
    }
  }

  /** A lookup finds exactly the abstract field of the folded name. */
  lemma FindIsField(ms: seq<Member<Json>>, name: string)
    ensures Find(ms, name) < |ms| <==> Fold(name) in Fields(ms)
    ensures Find(ms, name) < |ms| ==> Fields(ms)[Fold(name)] == Abs(ms[Find(ms, name)].value)
  {
    FieldsKeys(ms, Fold(name));
    if Find(ms, name) < |ms| { FieldsAt(ms, Find(ms, name)); }
  }

  lemma {:induction false} FieldsAppend(ms: seq<Member<Json>>, m: Member<Json>)
    requires Fold(m.key) !in Fields(ms)
    ensures Fields(ms + [m]) == Fields(ms)[Fold(m.key) := Abs(m.value)]
  {
    if ms != [] {
      FieldsAppend(ms[1..], m);
      assert (ms + [m])[1..] == ms[1..] + [m];
    } else {
      assert Fields([m]) == Fields([m][1..])[Fold(m.key) := Abs(m.value)];
    }
  }

  lemma DistinctWithout<T>(ms: seq<Member<T>>, i: nat)
    requires i < |ms| && DistinctKeys(ms)
    ensures DistinctKeys(Without(ms, i))
    ensures !HasKey(Without(ms, i), ms[i].key)
  {
    var r := Without(ms, i);
    assert forall k :: 0 <= k < |r| ==> r[k] == ms[if k < i then k else k + 1];
  }

  lemma {:induction false} FieldsWithout(ms: seq<Member<Json>>, i: nat)
    requires i < |ms| && DistinctKeys(ms)
    ensures Fields(Without(ms, i)) == Fields(ms) - {Fold(ms[i].key)}
  {
    if i == 0 {
      assert Without(ms, 0) == ms[1..];
      FieldsKeys(ms[1..], Fold(ms[0].key));
    } else {
      FieldsWithout(ms[1..], i - 1);
      var r := Without(ms, i);
      assert r[0] == ms[0] && r[1..] == Without(ms[1..], i - 1);
      assert Fold(ms[0].key) != Fold(ms[i].key);
    }
  }

  lemma {:induction false} FieldsUpdate(ms: seq<Member<Json>>, i: nat, v: Json)
    requires i < |ms|
    requires forall k :: 0 <= k < i ==> Fold(ms[k].key) != Fold(ms[i].key)
    ensures Fields(ms[i := ms[i].(value := v)]) == Fields(ms)[Fold(ms[i].key) := Abs(v)]
  {
    var ms' := ms[i := ms[i].(value := v)];
    if i == 0 {
      assert ms'[1..] == ms[1..];
    } else {
      assert ms[0].key != ms[i].key;
      FieldsUpdate(ms[1..], i - 1, v);
      assert ms'[1..] == ms[1..][i - 1 := ms[i].(value := v)];
    }
  }

  /** Deleting a key and appending a member under it: what add does to an object. */
  lemma FieldsReplace(ms: seq<Member<Json>>, name: string, v: Json)
    requires DistinctKeys(ms)
    ensures Fields(DeleteKey(ms, name)) == Fields(ms) - {Fold(name)}
    ensures DistinctKeys(DeleteKey(ms, name) + [Member(name, v)])
    ensures Fields(DeleteKey(ms, name) + [Member(name, v)]) == Fields(ms)[Fold(name) := Abs(v)]
  {
    var i := Find(ms, name);
    var rest := DeleteKey(ms, name);
    FindIsField(ms, name);
    if i < |ms| {
      FieldsWithout(ms, i);
      DistinctWithout(ms, i);
    }
    FieldsAppend(rest, Member(name, v));
    forall k | 0 <= k < |rest| ensures Fold(rest[k].key) != Fold(name) {
      FieldsKeys(rest, Fold(name));
    }
    assert Fields(ms)[Fold(name) := Abs(v)] == Fields(rest)[Fold(name) := Abs(v)];
  }

  lemma DistinctDelete(ms: seq<Member<Json>>, name: string)
    requires DistinctMembers(ms)
    ensures DistinctMembers(DeleteKey(ms, name))
  {
    var i := Find(ms, name);
    if i < |ms| {
      DistinctWithout(ms, i);
      var r := Without(ms, i);
      forall k | 0 <= k < |r| ensures Distinct(r[k].value) {
        assert r[k] == if k < i then ms[k] else ms[k + 1];
      }
    }
  }
}
