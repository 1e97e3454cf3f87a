// apply_patch as it runs: a document that the statements change one after the other.
module Applying {
  import opened Documents
  import opened Comparing
  import opened Pointers
  import opened Patching
  import Diffing
  import Merging
  import Walking

  /** decode_pointer_inplace, on the characters of a string. */
  method DecodePointer(text: string) returns (decoded: string)
    ensures decoded == DecodeInPlace(text)
  {
    var buffer, into, at := text, 0, 0;
    while at < |buffer|
      invariant 0 <= into <= at <= |buffer| == |text|
      invariant DecodeFrom(buffer, into, at) == DecodeFrom(text, 0, 0)
    {
      if buffer[at] == '~' {
        if at + 1 < |buffer| && buffer[at + 1] == '0' {
          buffer := buffer[into := '~'];
        } else if at + 1 < |buffer| && buffer[at + 1] == '1' {
          buffer := buffer[into + 1 := '/'];
        } else {
          return buffer;
        }
        at := at + 1;
      }
      into, at := into + 1, at + 1;
    }
    return buffer[..into];
  }

  class Target {
    var root: Json

    constructor (root: Json)
      ensures this.root == root
    {
      this.root := root;
    }

    /** detach_path. */
    method Detach(path: string) returns (item: Option<Json>)
      modifies this
      ensures match DetachPath(old(root), path)
        case None => item == None && root == old(root)
        case Some(cut) => item == Some(cut.item) && root == cut.rest
    {
      hide DetachChild, GetItem, PutItem, DecodeInPlace;
      var slash := LastSlash(path);
      if slash.None? {
        return None;
      }
      var up := path[..slash.value];
      var parent := GetItem(root, up);
      var child := DecodePointer(path[slash.value + 1..]);
      if parent.None? {
        return None;
      }
      var cut := DetachChild(parent.value, child);
      if cut.None? {
        return None;
      }
      root := PutItem(root, up, cut.value.rest);
      return Some(cut.value.item);
    }

    /** The part of apply_patch that adds the value at the path. */
    method Attach(path: string, value: Json) returns (status: nat)
      modifies this
      ensures root == AttachPath(old(root), path, value).doc && status == AttachPath(old(root), path, value).status
    {
      hide AttachChild, GetItem, PutItem, DecodeInPlace;
      var slash := LastSlash(path);
      if slash.None? {
        return 9;
      }
      var up := path[..slash.value];
      var parent := GetItem(root, up);
      var child := DecodePointer(path[slash.value + 1..]);
      if parent.None? {
        return 9;
      }
      var grown := AttachChild(parent.value, child, value);
      if grown.status == 0 {
        root := PutItem(root, up, grown.doc);
      }
      return grown.status;
    }

    /** apply_patch. */
    method Apply(patch: Json) returns (status: nat)
      requires NamesSource(patch)
      modifies this
      ensures root == ApplyPatch(old(root), patch).doc && status == ApplyPatch(old(root), patch).status
    {
      hide DetachPath, AttachPath, GetItem, PutItem, CompareJson, GetObjectItem, DecodeOperation, StringField;
      var pathItem := StringField(patch, "path");
      if pathItem.None? {
        return 2;
      }
      var path := pathItem.value;
      var opcode := DecodeOperation(patch);
      if opcode.INVALID? {
        return 3;
      }
      if opcode.TEST? {
        var item, expected := GetItem(root, path), GetObjectItem(patch, "value");
        if item.None? || expected.None? {
          return 1;
        }
        var compared := Walking.CompareJsonTrees(item.value, expected.value);
        root := PutItem(root, path, compared.a);
        return if compared.same then 0 else 1;
      }
      if path == "" {
        if opcode.REMOVE? {
          root := Invalid;
          return 0;
        }
        if opcode.REPLACE? || opcode.ADD? {
          var whole := GetObjectItem(patch, "value");
          if whole.None? {
            return 7;
          }
          root := whole.value;
          return 0;
        }
      }
      if opcode.REMOVE? || opcode.REPLACE? {
        var removed := Detach(path);
        if removed.None? {
          return 13;
        }
        if opcode.REMOVE? {
          return 0;
        }
      }
      var value;
      if opcode.MOVE? || opcode.COPY? {
        var from := GetObjectItem(patch, "from");
        if from.None? {
          return 4;
        }
        if opcode.COPY? && !from.value.String? {
          return 5;
        }
        if opcode.MOVE? {
          value := Detach(from.value.text);
        } else {
          value := GetItem(root, from.value.text);
        }
        if value.None? {
          return 5;
        }
      } else {
        value := GetObjectItem(patch, "value");
        if value.None? {
          return 7;
        }
      }
      status := Attach(path, value.value);
    }

    /**
     * cJSONUtils_ApplyPatches: status 1 if the patches are no array, else the first status that is
     * not 0. Edits come before the tests that sort, since ListSorting.DetachFromSorted shows what
     * becomes of a sorted object that is edited.
     */
    method ApplyAll(patches: Json) returns (status: nat)
      requires patches.Array? ==> TestsLast(patches.items)
      requires patches.Array? ==> forall i :: 0 <= i < |patches.items| ==> NamesSource(patches.items[i])
      modifies this
      ensures !patches.Array? ==> status == 1 && root == old(root)
      ensures patches.Array? ==>
        root == ApplyPatches(old(root), patches.items).doc && status == ApplyPatches(old(root), patches.items).status
    {
      hide ApplyPatch;
      if !patches.Array? {
        return 1;
      }
      var i := 0;
      assert patches.items[0..] == patches.items;
      while i < |patches.items|
        invariant 0 <= i <= |patches.items|
        invariant ApplyPatches(root, patches.items[i..]) == ApplyPatches(old(root), patches.items)
      {
        assert patches.items[i..][0] == patches.items[i] && patches.items[i..][1..] == patches.items[i + 1..];
        status := Apply(patches.items[i]);
        if status != 0 {
          return;
        }
        i := i + 1;
      }
      return 0;
    }
  }

  /** The patches made from two documents, applied to a copy of the first, lead to the second. */
  method DiffThenApply(from: Json, to: Json, copy: Json, stale: char) returns (status: nat, result: Json)
    requires Distinct(from) && Distinct(to) && Diffing.CleanKeys(from) && Diffing.CleanKeys(to)
    requires Small(Abs(from)) && Small(Abs(to)) && Distinct(copy) && Abs(copy) == Abs(from)
    ensures status == 0 && Abs(result) == Abs(to)
  {
    hide Patching.ApplyPatches, Patching.TestsLast, Patching.NamesSource, Diffing.CreatePatches, Diffing.Edits;
    Diffing.RoundTrip(from, to, copy, stale);
    Diffing.CreatedPatchesEdit("", from, to, stale);
    Diffing.EditsNeverSort(Diffing.CreatePatches("", from, to, stale));
    var generated := new Walking.PatchArray(stale);
    generated.Create("", from, to);
    assert [] + Diffing.CreatePatches("", from, to, stale) == Diffing.CreatePatches("", from, to, stale);
    var target := new Target(copy);
    status := target.ApplyAll(Array(generated.patches));
    result := target.root;
  }

  /** The merge patch made from two documents, merged into a copy of the first, leads to the second. */
  method DiffThenMerge(from: Json, to: Json, copy: Json, ghost keys: set<string>) returns (result: Json)
    requires Merging.Concordant(keys) && Merging.KeysWithin(from, keys) && Merging.KeysWithin(to, keys)
    requires Distinct(from) && Distinct(to)
    requires Distinct(copy) && Abs(copy) == Abs(from) && Merging.Mergeable(Abs(from), Abs(to))
    ensures Abs(result) == Abs(to)
  {
    Merging.MergeRoundTrip(from, to, copy, keys);
    var patch := Walking.GenerateMergePatch(from, to);
    if patch.None? {
      return copy;
    }
    result := Walking.MergeInto(Some(copy), patch.value);
  }
}
