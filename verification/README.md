# cJSON and the websocket slots of CivetWeb's examples, verified in Dafny

The project models three parts of the examples that come with CivetWeb.

* **JSON documents.** `examples/rest/cJSON/cJSON.c` and `cJSON_Utils.c`: trees of nodes in doubly
  linked lists, the parser and the printer, JSON Pointer (RFC 6901), JSON Patch (RFC 6902), JSON
  Merge Patch (RFC 7396), the two equality tests, the merge sort of members, copies, deletion and
  in-place minification. Theorems speak of the case-insensitive entry points.
* **Strings and bytes.** The two-pass string decoder, UTF-16 literals to UTF-8 (RFC 3629), and the
  growing print buffer.
* **Websocket client slots.** `examples/embedded_c/embedded_c.c`: connection handlers and informers
  that share a table under a lock, with a write outside the lock guarded by a fourth state.

Two pictures of a JSON tree are used. `Nodes`, `ListSorting`, `Trees`, `Resolving`, `Equality` and
`Copying` work on the heap of `cJSON` structs with their `next`, `prev` and `child` fields. The other
modules work on the value such a tree stands for (`Documents.Json`, with members in list order) and on
the abstract document (`Documents.Doc`), in which members have no order and keys differing in case
only are one key. `Resolving.LocateIsGetItem`, `Equality.SharedNodes` and `Copying.CopyHasValue`
connect the two. Loops and buffers of the source are methods with loops (`Parsing`, `Printing`,
`Walking`, `Applying`, `Minifying`, `StringCodec`'s passes in `Parsing.ParseBuffer`), proved to compute
the functions that the theorems are about.

| module | about |
|---|---|
| `Texts`, `Documents` | C strings and their two orders, decimal numerals; trees as values, abstract documents |
| `Sorting`, `ListSorting` | `sort_list` as a function, and on the linked list |
| `Comparing`, `Equality`, `Walking` | `compare_json`, `cJSON_Compare`; the second on nodes; the loops over children |
| `Pointers`, `Resolving` | pointer texts and resolution; paths of nodes on the heap |
| `Patching`, `Applying` | RFC 6902 against `apply_patch`; the statements of `apply_patch` |
| `Diffing`, `Needs`, `Merging` | `create_patches`, and that each patch is needed; `merge_patch`, `generate_merge_patch` |
| `Nodes`, `Trees`, `Copying` | child lists edited in place; whole trees, copies, deletion |
| `Unicode`, `StringCodec` | surrogates and UTF-8; escaping and the two passes of the decoder |
| `Grammar`, `Acceptance`, `Faults`, `Conformance` | the parser as functions on texts; the language that it accepts; where it reports errors; the grammar of RFC 8259 |
| `RoundTripping`, `Layout` | parsing undoes printing; the layout of printed text, and minifying it |
| `Parsing`, `Printing`, `Minifying` | parser, printer and minifier on buffers |
| `Slots`, `SlotRuns` | the websocket client table as interleaved steps; what each handler achieves |

Foreign code appears as parameters: `Grammar.Numerics` holds `sprintf` with 15 and 17 digits and
`strtod`, and `Grammar.Exact` and `Conformance.ScansNumerals` are what the C standard promises of them
for a number and for a numeral; the lock of the slots is a mutex and the websocket write an opaque
step. A choice of unspecified memory contents is a parameter too (`stale`, what a freshly allocated
path held before).

## Where the code falls short of its promise

Each entry names the lemma about an input that fails, and the lemma with the exact condition under
which the code is right.

| promise | an input that fails | right if and only if |
|---|---|---|
| a move is that of RFC 6902 | `Patching.MoveIntoItself`: `[[true], [false]]`, from `/0` to `/0/0` | `Patching.MoveIsRfc`: the target does not lie below the moved value, or there is no next element in the same array in which the value could be added at what the target has below it |
| an array of patches is applied as RFC 6902 says | the same; a copy onto the root | `Patching.ApplyPatchesIsRfc`: the operations lead to no such move, and to no move or copy of a value onto the root |
| a path that is no pointer is refused | `Patching.StrayPathRemoves`: `a/0` | `Patching.StrayPath`: the path has no slash, or the request fails at what follows from the last one on |
| keys are escaped | `Pointers.EncodeExamples`: `~`, `/` | `Pointers.EncodeIsEscapeExactlyWhenClean`: no `~` and no `/` |
| tokens are unescaped in place | `Pointers.DecodeExamples`: `~1`, `~0a` | `Pointers.DecodeExactlyWhenSettles`: no `~1`, and every character behind a `~0` equals the one that stands where it belongs |
| tokens are array indices | `Pointers.DecodeIndexExamples`: `1a` and the empty token; `Pointers.IndexWraps`: 2^64 | `Pointers.DecodeIndexExactlyWhenRegular`: not empty; if it is a digit and characters from `0` up, without a leading zero, then all are digits, of a number below 2^64 |
| the case-sensitive sort is alphabetical | `Sorting.CaseSensitiveSortFails`: `"a"`, `"B"`; `Sorting.CaseVariantsFail`: `"c"`, `"A"`, `"a"` | `Sorting.CaseSensitiveSortIsAlphabetical`: strcmp and the folded order put alike every two keys that folding does not make equal, and there are at most two members or no two keys that differ in case only |
| an item of a sorted object can be detached | `ListSorting.SortMovesHead`: `"b"`, `"a"` | `ListSorting.DetachFromSorted`: the sort has kept the first child |
| the two equality tests agree | `Comparing.ComparisonsDisagree`: an invalid item; 1.0 with the integer fields 1 and 2 | `Comparing.ComparisonsAgree`: on documents equal but for integer fields, equality and the absence of invalid items coincide |
| a merge patch leads to its target | `Merging.NullMemberFails`: from `{}` to `{"a": null}` | `Merging.MergeRoundTrip`: the pair is `Mergeable`, on keys that strcmp and the folded order put alike |
| the same, on mergeable pairs | `Merging.MixedCaseFails`: from `{"a": true, "B": true}` to `{"B": true}`; `Merging.CaseVariantFails`: from `{"a": true}` to `{"A": true}` | `Merging.ArrivesExactlyWhenConcordant`: strcmp and the folded order put the keys alike |
| minifying stays inside the text | `Minifying.ReadsPastTerminator`: `"a`, `/*` | `Minifying.ReadIndexExactlyWhenEnds`: every string and block comment ends |
| every number is read | `Conformance.LongNumeralRejected`: 64 ones | `Conformance.NumeralAcceptedExactlyWhenItFits`: at most 63 characters |
| only JSON is accepted | `Acceptance.ControlCharacterAccepted`: `null` behind a control character | `Acceptance.AcceptedExactlyWhenLax` gives the language that is accepted instead |
| an error is reported where it stands | `Faults.MissingName`: `{a` | `Faults.FaultPosition` with the lemmas about each kind of error: it is, but for a missing name (`Faults.NoNameFails`) |
| both string passes see the same quotes | `StringCodec.PassesOutOfStep`: `\u123\\"` | `StringCodec.OverrunsExactlyBehindLiterals`: no literal is followed, up to the closing quote, by an odd number of backslashes and nothing else; the buffer suffices in any case, `StringCodec.AllocationSuffices` |

The header asks callers of `cJSON_PrintPreallocated` for 5 bytes more than needed
(`examples/rest/cJSON/cJSON.h:152`); the code needs exactly one byte more than the text and its
terminator (`Printing.PrintPreallocated`).

## Model

| member | source | states |
|---|---|---|
| Texts.CompareStrings | examples/rest/cJSON/cJSON_Utils.c:73-99 | the sign of the result is the strict order of the keys as the comparison sees them, with equality exactly for equal seen keys |
| Texts.FoldsAlike | examples/rest/cJSON/cJSON_Utils.c:73-99 | keys fold alike if and only if they have the same length and differ at most in the case of letters |
| Texts.LessExactly | examples/rest/cJSON/cJSON_Utils.c:73-99 | the order is decided at the first difference, by the smaller character or the end of the string |
| Sorting.MergeSortOrdered | examples/rest/cJSON/cJSON_Utils.c:460-568 | the case-insensitive sort of any list is ordered by folded key |
| Sorting.SortedMembers | examples/rest/cJSON/cJSON_Utils.c:570-577 | sorting an object keeps the document it stands for, its keys distinct, and leaves them ascending |
| Sorting.SortIdempotent | examples/rest/cJSON/cJSON_Utils.c:474-483 | sorting a sorted list changes nothing |
| Sorting.CaseSensitiveSortIsAlphabetical | examples/rest/cJSON/cJSON_Utils.h:72-74 | the case-sensitive sort gives every arrangement of some members in the order of strcmp if and only if strcmp and the folded order put alike every two of their keys with different foldings, and there are at most two members or no two keys that differ in case only, because its merge folds case |
| Sorting.DiscordantPairStays | examples/rest/cJSON/cJSON_Utils.c:460-568 | two keys in folded order but not in the order of strcmp, put in front, keep their places through all splits and merges |
| ListSorting.SortList | examples/rest/cJSON/cJSON_Utils.c:460-568 | on the list itself: the returned next chain holds exactly the input nodes in the order of the merge sort, every prev behind the head is right, a sorted list is untouched, the head keeps a stale prev |
| ListSorting.MergeLists | examples/rest/cJSON/cJSON_Utils.c:508-566 | merging two disjoint lists relinks their nodes in the order of the functional merge |
| ListSorting.Middle | examples/rest/cJSON/cJSON_Utils.c:485-502 | the two walking pointers find the node at index ceil(n/2) |
| ListSorting.DetachFromSorted | examples/rest/cJSON/cJSON.c:2072-2100 | detaching an item of an object that was just sorted leaves the doubly linked list of the others if and only if the sort has kept the first child; else the next chain is still right when another than the first child goes, and a link of the rest leads back to its first node when that one goes |
| Comparing.CompareJsonDecidesEquality | examples/rest/cJSON/cJSON_Utils.c:579-666 | compare_json is true exactly for equal documents, and its sorting changes neither document |
| Comparing.CompareDecidesAlike | examples/rest/cJSON/cJSON.c:2800-2923 | on trees that share no node, cJSON_Compare holds exactly for documents without invalid items that are equal but for integer fields |
| Comparing.BothDecideEquality | examples/rest/cJSON/cJSON.c:2800-2923 | both tests decide equality on documents without invalid items whose integer fields are their doubles cut off |
| Comparing.ComparisonsAgree | examples/rest/cJSON/cJSON_Utils.c:579-666 | the sorting and the looking-up comparison answer alike if and only if, for documents equal but for integer fields, being equal and having no invalid item coincide |
| Walking.CompareJsonTrees | examples/rest/cJSON/cJSON_Utils.c:579-666 | the walk in step over both trees gives compare_json's answer and the trees as it leaves them |
| Equality.SharedNodes | examples/rest/cJSON/cJSON.c:2824-2828 | with the shortcut for one and the same node, a match still means documents equal but for integer fields, and the answer is that of the comparison of values on valid documents and on trees that share no node |
| Equality.CompareNodes | examples/rest/cJSON/cJSON.c:2800-2923 | the walk over the child lists, with NULL pointers, the shortcut and both lookups by key, computes that comparison |
| Equality.GetObjectItem | examples/rest/cJSON/cJSON.c:1773-1799 | the loop over the children finds the first whose key is the name up to case, or NULL |
| Pointers.EncodeIsEscapeExactlyWhenClean | examples/rest/cJSON/cJSON_Utils.c:154-177 | encode_string_as_pointer writes the escaped key exactly for keys without tilde and slash |
| Pointers.DecodeExactlyWhenSettles | examples/rest/cJSON/cJSON_Utils.c:338-370 | on a token without slash and with valid escapes, the in-place decoder gives the unescaped token if and only if the token has no "~1" and each plain character equals the one at the place it is decoded to |
| Pointers.PlainIndex | examples/rest/cJSON/cJSON_Utils.c:338-370 | for such a token in front of an array, decoding changes neither the index it stands for nor whether it is "-" |
| Pointers.MatchTokenIsUnescape | examples/rest/cJSON/cJSON_Utils.c:101-136 | compare_pointers accepts exactly the tokens that unescape to the key, up to case |
| Pointers.DecodeIndexExactlyWhenRegular | examples/rest/cJSON/cJSON_Utils.c:254-279 | the index decoder agrees with RFC 6901 exactly on regular tokens |
| Pointers.GetItemIsGet | examples/rest/cJSON/cJSON_Utils.c:281-326 | resolution is that of section 4 of RFC 6901 on the document, for regular array tokens |
| Pointers.PutItemIsSet | examples/rest/cJSON/cJSON_Utils.c:281-326 | changing the resolved item sets the value at that location and nothing else |
| Resolving.ComparePointers | examples/rest/cJSON/cJSON_Utils.c:101-136 | the loop over key and token decides whether the token names the key |
| Resolving.DecodeArrayIndex | examples/rest/cJSON/cJSON_Utils.c:254-279 | the digit loop, with size_t wrap-around and its test of the first character only |
| Resolving.GetItemFromPointer | examples/rest/cJSON/cJSON_Utils.c:281-326 | the walk over the heap finds the node that the pointer locates, or NULL |
| Resolving.LocateIsGetItem | examples/rest/cJSON/cJSON_Utils.c:281-326 | resolution on nodes is resolution on the value they stand for |
| Resolving.FindPointerFromObjectTo | examples/rest/cJSON/cJSON_Utils.c:179-239 | the depth-first search returns the path of the first occurrence of the target |
| Resolving.PathExists | examples/rest/cJSON/cJSON_Utils.c:179-239 | exactly the nodes of the tree have a path |
| Resolving.PathLeadsBack | examples/rest/cJSON/cJSON_Utils.c:179-326 | the path found for a node resolves to that very node, on trees with distinct clean keys |
| Resolving.FindThenGet | examples/rest/cJSON/cJSON_Utils.c:179-326 | finding a node's pointer and resolving it returns the node itself |
| Patching.ApplyPatchesIsRfc | examples/rest/cJSON/cJSON_Utils.c:1011-1038 | every front part of an array of patches does to the document what RFC 6902 says, errors included, if and only if the operations lead to no move or copy onto the root and no move into the next element |
| Patching.ApplyPatchIsRfc | examples/rest/cJSON/cJSON_Utils.c:717-1009 | one patch object, with its operation read off the text of its "op" member: "add", "remove", "replace", "move", "copy" and "test" do what section 4 of RFC 6902 says of its own "path", "from" and "value", any other text is an error |
| Patching.StatusMeans | examples/rest/cJSON/cJSON_Utils.c:782-1009 | each status that apply_patch returns holds exactly for one state of the patch and the document: no path, unknown operation, missing operand, no value at the location, no parent, no index, an index past the end |
| Patching.FailureLeaves | examples/rest/cJSON/cJSON_Utils.c:862-1009 | a failing patch leaves the document as it was, except that a move and a replace may have removed their item |
| Patching.AddedComesLast | examples/rest/cJSON/cJSON_Utils.c:965-990 | a member added to an object comes behind the others, which keep their order |
| Patching.ApplyIsRfc | examples/rest/cJSON/cJSON_Utils.c:782-1009 | apply_patch returns 0 exactly when the operation of section 4 of RFC 6902 succeeds, and has then done exactly that operation, if and only if the request is no move or copy of a value onto the root and no move below the moved value that the next element of its array makes possible |
| Patching.ReplaceIsRemoveThenAdd | examples/rest/cJSON/cJSON_Utils.c:855-910 | replacing is removing and then adding at the same location |
| Patching.DetachPathIsRemove | examples/rest/cJSON/cJSON_Utils.c:406-457 | detach_path removes the value at the path, returns it, and fails exactly when there is none |
| Patching.AttachPathIsAdd | examples/rest/cJSON/cJSON_Utils.c:937-997 | the add part succeeds exactly when RFC 6902 allows the add, with "-" as append and the length as an index |
| Patching.MoveIsRfc | examples/rest/cJSON/cJSON_Utils.c:875-905 | a move is a remove at one location and an add of the removed value at the other; it is the move of section 4.4 of RFC 6902 if and only if the target does not lie below the moved value or the next element of its array could not take the value there |
| Patching.ShiftsExactly | examples/rest/cJSON/cJSON_Utils.c:875-905 | a value can be moved below itself exactly when it is an array element, another follows it, and the value can be added in that one at the rest of the target |
| Patching.StrayPath | examples/rest/cJSON/cJSON_Utils.c:281-326 | a request at a path without a slash in front is carried out at what stands from its last slash on, and fails when there is none; a test at such a path looks at the root |
| Patching.TestIsRfc | examples/rest/cJSON/cJSON_Utils.c:801-806 | a test succeeds exactly on equal values and changes no document |
| Applying.Target.Detach | examples/rest/cJSON/cJSON_Utils.c:406-457 | the statements of detach_path compute the detached item and the remaining tree |
| Applying.Target.Apply | examples/rest/cJSON/cJSON_Utils.c:782-1009 | the statements of apply_patch, early exits and changes left behind by failures included, compute ApplyPatch; the "from" of a move must be a string |
| Applying.Target.ApplyAll | examples/rest/cJSON/cJSON_Utils.c:1011-1038 | the loop stops at the first failing patch and otherwise applies all, for arrays with only tests behind a test that may sort |
| Applying.DecodePointer | examples/rest/cJSON/cJSON_Utils.c:338-370 | the in-place decoding loop computes DecodeInPlace |
| Diffing.PatchesArrive | examples/rest/cJSON/cJSON_Utils.c:1114-1252 | patches generated for a location put the target value there and change nothing else, anywhere in a larger document |
| Diffing.RoundTrip | examples/rest/cJSON/cJSON_Utils.c:1254-1267 | applying the generated patches to any copy of the first document succeeds and gives the second |
| Needs.PatchesAreNeeded | examples/rest/cJSON/cJSON_Utils.c:1114-1252 | every generated patch replaces a value that differs and is not a container in both documents, or removes one that the second document does not have, or adds one that the first has not |
| Needs.EmptyExactlyWhenEqual | examples/rest/cJSON/cJSON_Utils.c:1114-1252 | no patches are generated if and only if the documents are equal |
| Needs.ContainersAreEdited | examples/rest/cJSON/cJSON_Utils.c:1143-1245 | two arrays, and two objects, are never replaced as a whole: every patch names a place strictly below them |
| Needs.EqualPlacesUntouched | examples/rest/cJSON/cJSON_Utils.c:1114-1252 | no patch names a place at or below one that holds the same value in both documents, at any depth |
| Walking.PatchArray.Create | examples/rest/cJSON/cJSON_Utils.c:1114-1252 | the loops append exactly CreatePatches, with leftovers removed at one fixed index and appended by "-" |
| Walking.PatchArray.ComposePatch | examples/rest/cJSON/cJSON_Utils.c:1069-1107 | one patch object with op, path and value is appended |
| Applying.DiffThenApply | examples/rest/cJSON/cJSON_Utils.c:1011-1267 | generating and applying, as they run: status 0 and the second document |
| Merging.MergePatchIsRfc | examples/rest/cJSON/cJSON_Utils.c:1294-1351 | merge_patch is the MergePatch function of section 2 of RFC 7396, for every patch |
| Merging.RfcMergeIsDocMerge | examples/rest/cJSON/cJSON_Utils.c:1294-1351 | the order in which the patch lists its members does not matter |
| Merging.GenerateIsDocGenerate | examples/rest/cJSON/cJSON_Utils.c:1363-1439 | the generated patch has one entry for each key whose values differ, and is NULL when there is none, on keys that strcmp and the folded order put alike |
| Merging.MergeRoundTrip | examples/rest/cJSON/cJSON_Utils.c:1363-1439 | on such keys, no patch means equal documents; otherwise merging the patch gives the second document if and only if the pair is mergeable |
| Merging.ArrivesExactlyWhenConcordant | examples/rest/cJSON/cJSON_Utils.c:1363-1439 | for any set of keys: every mergeable pair of documents with these keys is led from the first to the second if and only if strcmp, which the walk uses, and the folded order, which the sort uses, put the keys alike |
| Merging.NoNullIsMergeable | examples/rest/cJSON/cJSON_Utils.c:1363-1439 | a target without null members is always reached |
| Walking.MergeInto | examples/rest/cJSON/cJSON_Utils.c:1294-1351 | the loop over the patch computes MergePatch |
| Walking.GenerateMergePatch | examples/rest/cJSON/cJSON_Utils.c:1363-1439 | the loop over both sorted lists computes Generate |
| Applying.DiffThenMerge | examples/rest/cJSON/cJSON_Utils.c:1294-1439 | generating and merging, as they run, leads to the second document |
| Nodes.AddItem | examples/rest/cJSON/cJSON.c:1845-1872 | appending at the end of the doubly linked child list |
| Nodes.DetachItem | examples/rest/cJSON/cJSON.c:2072-2100 | unlinking leaves the list without the item, and the item linked to nothing |
| Nodes.InsertItemInArray | examples/rest/cJSON/cJSON.c:2142-2169 | inserting in front of an index; past the end it appends, a negative index does nothing |
| Copying.ReplaceAndDelete | examples/rest/cJSON/cJSON.c:2171-2204 | the replacement takes the item's place in the list, and the item's tree is given back |
| Nodes.InsertLaws | examples/rest/cJSON/cJSON.c:2142-2169 | on a plain sequence, an inserted item stands at the index and detaching there takes it out again; adding is inserting at the end |
| Nodes.DetachLaws | examples/rest/cJSON/cJSON.c:2102-2204 | a detached item can be put back, and replacing is detaching and inserting |
| Nodes.WrongIndex | examples/rest/cJSON/cJSON.c:2102-2204 | a wrong index changes nothing, but that an insertion past the end appends |
| Nodes.PerformAll | examples/rest/cJSON/cJSON.c:1845-2214 | any run of edits keeps the list doubly linked, with the items that the same edits leave in a plain sequence |
| Copying.Duplicate | examples/rest/cJSON/cJSON.c:2551-2628 | a tree of new nodes only, doubly linked, without references, with the value of the original |
| Copying.CopyHasValue | examples/rest/cJSON/cJSON.c:2551-2628 | equal pictures without the reference flags stand for equal documents |
| Copying.Delete | examples/rest/cJSON/cJSON.c:215-236 | every owned node is read while live and freed exactly once, children of references are not |
| Copying.BuiltIsOwned | examples/rest/cJSON/cJSON.c:2551-2628 | a copy owns all its nodes, once each |
| Copying.DuplicateThenDelete | examples/rest/cJSON/cJSON.c:215-236 | deleting a copy frees exactly what making it allocated |
| Unicode.EncodeUtf8 | examples/rest/cJSON/cJSON.c:635-696 | the byte loop writes the UTF-8 form of the code point and nothing around it |
| Unicode.Utf8RoundTrip | examples/rest/cJSON/cJSON.c:635-696 | every scalar value decodes back from its UTF-8 form (section 3 of RFC 3629) |
| Unicode.LiteralToUtf8 | examples/rest/cJSON/cJSON.c:578-696 | one literal, or a surrogate pair, is decoded and its UTF-8 bytes are written behind what the output holds; a refused one is reported with length 0 |
| Unicode.ParseHex4Digits | examples/rest/cJSON/cJSON.c:541-575 | the loop gives the number of four hexadecimal digits, and 0 when one is invalid |
| Unicode.HexDigitExactly | examples/rest/cJSON/cJSON.c:541-575 | the sixteen digits in both cases, and no other characters, have their values |
| Unicode.UnspelledIsZero | examples/rest/cJSON/cJSON.c:541-575 | an invalid digit makes the literal stand for NUL |
| Unicode.ReadBasic | examples/rest/cJSON/cJSON.c:578-633 | one literal outside the surrogates is read as its value |
| Unicode.ReadPair | examples/rest/cJSON/cJSON.c:596-627 | a surrogate pair is read as its supplementary value |
| Unicode.RejectsExactlyLoneSurrogates | examples/rest/cJSON/cJSON.c:578-627 | a literal that no other follows is rejected exactly when its code unit is not the UTF-16 form of a scalar value, and otherwise read as that value |
| Unicode.RejectsExactlyBrokenPairs | examples/rest/cJSON/cJSON.c:590-627 | two literals in a row are rejected exactly when neither the first unit nor the pair is the UTF-16 form of a scalar value |
| StringCodec.EscapedIsRead | examples/rest/cJSON/cJSON.c:699-825 | both passes read an escaped text back as the text |
| StringCodec.AllocationSuffices | examples/rest/cJSON/cJSON.c:712-803 | the size that the first pass asks for bounds what the second writes, for every text, whether it decodes or fails on the way |
| StringCodec.DecodeBound | examples/rest/cJSON/cJSON.c:712-803 | the bound holds however far the passes are out of step |
| StringCodec.OverrunsExactlyBehindLiterals | examples/rest/cJSON/cJSON.c:712-803 | the second pass takes the closing quote that the first found along, as an escaped character, if and only if one of its literals is followed up to that quote by an odd number of backslashes and nothing else |
| StringCodec.FullLiteralsStayInStep | examples/rest/cJSON/cJSON.c:541-575 | so it does not when every literal has its four hexadecimal digits |
| Conformance.EscapesExactly | examples/rest/cJSON/cJSON.c:763-792 | the eight two-character escapes of RFC 8259 are decoded by its table, and no others |
| Conformance.EscapeIsPiece | examples/rest/cJSON/cJSON.c:828-947 | every character but NUL is printed as one of the pieces of RFC 8259 that mean it |
| Conformance.EscapeIsShortest | examples/rest/cJSON/cJSON.c:828-947 | no piece that means the character is shorter than what is printed |
| RoundTripping.ParseUndoesPrint | examples/rest/cJSON/cJSON.c:1213-1718 | printing, formatted or not, and strict parsing give back the same tree, up to the nesting limit |
| Layout.MinifyUndoesFormat | examples/rest/cJSON/cJSON.c:1088-1150 | the unformatted text has no character up to the space outside of its strings, and minifying the formatted text gives exactly it |
| Layout.ObjectLayout | examples/rest/cJSON/cJSON.c:1607-1718 | a formatted object is its lines, with a comma and a line break between them, each a tab per level, the quoted key, a colon, a tab and the value; an unformatted one is its pairs with commas between them |
| Layout.MemberOnItsLine | examples/rest/cJSON/cJSON.c:1607-1718 | each member stands between line breaks, behind as many tabs as it is deep |
| Layout.ArrayLayout | examples/rest/cJSON/cJSON.c:1436-1495 | an array is its elements with commas between them, and spaces behind these when formatted |
| Layout.NumberLayout | examples/rest/cJSON/cJSON.c:475-503 | a number prints with 15 digits whenever these read back as the same double, and else with 17 |
| Parsing.ParseBuffer.SkipWhitespace | examples/rest/cJSON/cJSON.c:964-982 | whitespace is skipped without leaving the buffer |
| Parsing.ParseBuffer.CopyNumber | examples/rest/cJSON/cJSON.c:281-313 | at most 63 number characters are copied |
| Parsing.ParseBuffer.ScanLiteral | examples/rest/cJSON/cJSON.c:712-736 | the first pass finds the closing quote and counts the skipped backslashes |
| Parsing.ParseBuffer.DecodeLiteral | examples/rest/cJSON/cJSON.c:738-806 | the second pass decodes into the allocated output without leaving it |
| Parsing.ParseBuffer.ParseStringLiteral | examples/rest/cJSON/cJSON.c:699-825 | parse_string gives the text, or the error position |
| Parsing.ParseBuffer.ParseArrayItem | examples/rest/cJSON/cJSON.c:1342-1434 | the loop over elements, stepping back in front of the first, parses as the grammar says, restores the depth, and refuses to nest beyond the limit |
| Parsing.ParseBuffer.ParseObjectItem | examples/rest/cJSON/cJSON.c:1498-1604 | the same for members |
| Parsing.ParseBuffer.ParseWithOpts | examples/rest/cJSON/cJSON.c:1001-1078 | on every text the parser ends inside the buffer with the tree of the grammar, or with an error position inside the text |
| Grammar.ParseValue | examples/rest/cJSON/cJSON.c:1213-1265 | an accepted value takes at least one character and never the terminator |
| Comparing.ToIntIsCutOff | examples/rest/cJSON/cJSON.c:322-334 | the integer field is the one int that lies between zero and the double and less than 1 from it, or the end of the int range that the double is beyond |
| Conformance.IntegerIsRead | examples/rest/cJSON/cJSON.c:263-338 | digits, with or without a minus sign, whose number is in the int range are parsed with that number in both fields |
| Conformance.FractionIsCutOff | examples/rest/cJSON/cJSON.c:322-334 | -1.5 is parsed with the integer field -1 |
| Grammar.ParsedWithinLimit | examples/rest/cJSON/cJSON.c:1342-1604 | no accepted value is nested beyond the limit, counted from the depth at which it is read |
| Acceptance.AcceptedExactlyWhenLax | examples/rest/cJSON/cJSON.c:1001-1078 | strict parsing accepts a text if and only if it is one of a laxer grammar and nested within the limit, and gives the tree that it denotes: a byte order mark may stand in front, control characters count as whitespace, and a number is any run of at most 63 number characters that strtod takes as a whole |
| Acceptance.PrefixAccepted | examples/rest/cJSON/cJSON.c:1001-1078 | without the demand for the terminator, a value of that grammar is accepted in front of any text, and what follows it is left |
| Acceptance.PrefixFound | examples/rest/cJSON/cJSON.c:1001-1078 | and what stands in front of what is left is such a value, if no number character follows |
| Faults.FaultPosition | examples/rest/cJSON/cJSON.c:1001-1078 | behind whatever values, names and commas, in however many open lists and records, an error at the place of a value is the one that parsing reports |
| Faults.NoValueFails | examples/rest/cJSON/cJSON.c:1213-1265 | where no value starts, the error is there |
| Faults.NoCommaFails | examples/rest/cJSON/cJSON.c:1407-1414 | behind an element without a comma or a bracket, the error is there |
| Faults.NoNameFails | examples/rest/cJSON/cJSON.c:699-711 | where no name starts, the error is reported one character further |
| Faults.NoColonFails | examples/rest/cJSON/cJSON.c:1561-1570 | behind a name without a colon, the error is there |
| Faults.NoMemberCommaFails | examples/rest/cJSON/cJSON.c:1579-1586 | behind a member without a comma or a brace, the error is there |
| Faults.OpenStringFails | examples/rest/cJSON/cJSON.c:712-736 | a string without an end is reported behind its opening quote |
| Conformance.BadStringFails | examples/rest/cJSON/cJSON.c:738-825 | a bad escape or literal behind any pieces is reported where it starts |
| Faults.TrailingFails | examples/rest/cJSON/cJSON.c:1032-1040 | text behind the value, when the terminator is demanded, is reported where it starts |
| Faults.NestedBrackets | examples/rest/cJSON/cJSON.c:1342-1352 | 1000 brackets within each other are accepted, 1001 are not |
| Acceptance.FormAccepted | examples/rest/cJSON/cJSON.c:1213-1604 | every value of that grammar is accepted inside any text |
| Acceptance.FormFound | examples/rest/cJSON/cJSON.c:1213-1604 | what is accepted, with no number character behind it, is a value of that grammar |
| Conformance.ValueIsLax | examples/rest/cJSON/cJSON.c:1213-1604 | a value of RFC 8259 is one of that grammar and denotes the same tree |
| Conformance.ValueAccepted | examples/rest/cJSON/cJSON.c:1213-1604 | every value of the grammar of RFC 8259, with any whitespace, is accepted inside any text, with the tree that it denotes |
| Conformance.TextAccepted | examples/rest/cJSON/cJSON.c:1001-1078 | every JSON text of RFC 8259 whose literals spell scalar values, nested within the limit and without numerals of more than 63 characters, is accepted, with the tree that it denotes |
| Conformance.NumeralAcceptedExactlyWhenItFits | examples/rest/cJSON/cJSON.c:263-338 | a numeral of RFC 8259 as the whole text is accepted if and only if it has at most 63 characters |
| Conformance.PiecesAreRead | examples/rest/cJSON/cJSON.c:699-825 | both passes read any string of unescaped characters, short escapes, literals and surrogate pairs as the bytes it denotes |
| Printing.PrintBuffer.Ensure | examples/rest/cJSON/cJSON.c:374-459 | room is made exactly when the limit allows it, and what was printed is kept |
| Printing.PrintBuffer.UpdateOffset | examples/rest/cJSON/cJSON.c:462-472 | the offset moves to the terminator last written |
| Printing.PrintBuffer.PrintString | examples/rest/cJSON/cJSON.c:828-947 | the quoted, escaped text and a terminator are written, inside the reserved room |
| Printing.PrintBuffer.PrintArray | examples/rest/cJSON/cJSON.c:1436-1495 | succeeds exactly when all is printable and fits, and writes the text of the array |
| Printing.PrintBuffer.PrintObject | examples/rest/cJSON/cJSON.c:1607-1718 | the same for objects, with indentation |
| Printing.PrintBuffer.PrintValue | examples/rest/cJSON/cJSON.c:1268-1339 | succeeds exactly when every part is printable and the text plus two bytes fit the limit |
| Printing.Print | examples/rest/cJSON/cJSON.c:1088-1150 | the printed buffer is exactly the text and its terminator |
| Printing.PrintBuffered | examples/rest/cJSON/cJSON.c:1163-1191 | the text does not depend on the guessed size |
| Printing.PrintPreallocated | examples/rest/cJSON/cJSON.c:1193-1210 | succeeds exactly when the buffer has one byte more than text and terminator, with the same text |
| Printing.PrintableIsComplete | examples/rest/cJSON/cJSON.c:1268-1339 | the trees of the round trip are among those that print |
| Minifying.MinifyInPlace | examples/rest/cJSON/cJSON.c:2630-2698 | for every text the read index ends at the end of the text, or at the first place behind the terminator that is read; inside the text the buffer ends up with what is kept and a terminator |
| Minifying.ReadIndexExactlyWhenEnds | examples/rest/cJSON/cJSON.c:2639-2694 | the loops stay inside the text if and only if every string and every block comment ends |
| Minifying.MinifyKeepsMeaning | examples/rest/cJSON/cJSON.c:2630-2698 | a text that parses strictly still parses to the same tree when minified, and minifying again changes nothing |
| Minifying.ValueKept | examples/rest/cJSON/cJSON.c:2630-2698 | every value is read the same from the minified text, with the minified rest behind it |
| Layout.BlanksGo | examples/rest/cJSON/cJSON.c:2639-2656 | spaces, tabs, carriage returns and line feeds outside strings go |
| Layout.LineCommentGoes | examples/rest/cJSON/cJSON.c:2657-2664 | a comment to the end of the line goes |
| Layout.BlockCommentGoes | examples/rest/cJSON/cJSON.c:2665-2673 | a block comment goes, up to the first star and slash behind its opening slash |
| Layout.LiteralStays | examples/rest/cJSON/cJSON.c:2674-2687 | a string literal stays as it is |
| Layout.TokenStays | examples/rest/cJSON/cJSON.c:2688-2692 | everything else stays |
| Slots.StepKeeps | examples/embedded_c/embedded_c.c:832-976 | every step of every handler and informer keeps the invariant |
| Slots.Safety | examples/embedded_c/embedded_c.c:832-976 | over every interleaving: a slot has a connection exactly when its state is not 0, no connection owns two slots, state 3 holds exactly while one informer is inside, and all ASSERTs hold |
| Slots.WriteTarget | examples/embedded_c/embedded_c.c:945-976 | the unlocked write goes to the connection seen when state 3 was entered, and the slot is not freed before state 2 is back |
| Slots.Progress | examples/embedded_c/embedded_c.c:832-976 | no deadlock |
| Slots.CloseCanFinish | examples/embedded_c/embedded_c.c:917-941 | a waiting close handler can always be scheduled to its end, with its slot free again |
| SlotRuns.ConnectRun | examples/embedded_c/embedded_c.c:831-855 | a connect handler that runs from any reachable state with the lock free ends; it accepts the client if and only if some slot has no connection, and then the first such slot holds it in state 1 and its user data names that slot; no other slot changes, and none when it turns the client away |
| SlotRuns.ConnectDecides | examples/embedded_c/embedded_c.c:831-855 | the same decision among any steps of all other handlers and informers |
| SlotRuns.ReadyRun | examples/embedded_c/embedded_c.c:858-870 | the ready handler sets the slot of its connection to state 2 and changes nothing else |
| SlotRuns.CloseRun | examples/embedded_c/embedded_c.c:917-941 | the close handler empties and frees the slot of its connection and changes no other; it waits while an informer is writing |
| SlotRuns.InformRun | examples/embedded_c/embedded_c.c:945-976 | an informer that runs from any state with the lock free writes once to the connection of each slot in state 2, in order, and to no other, and leaves the table as it was |

## Left out

- Applying.Target.ApplyAll: patches that edit behind a test on an array or object; the test may have sorted an object of the document, and `ListSorting.DetachFromSorted` says what an edit of that object does. Documents are likewise taken with correct prev fields, not as a sort or a generator of patches has left them.
- Applying.Target.Apply: a move whose "from" is no string, for which the source reads through a NULL pointer.
- Patching.ApplyIsRfc: paths that do not start with a slash, which RFC 6902 refuses and the source reads from their last slash on (`Patching.StrayPath`); paths whose last token has an invalid escape or is misread by the decoder (`Pointers.Plain`), or with array tokens that the index decoder misreads (`Pointers.Regular`).
- Diffing.RoundTrip: keys with `~` or `/`, keys of one object that fold to the same key, and Raw items are outside; the first two for the reasons that `Pointers.EncodeIsEscapeExactlyWhenClean` and `Sorting.SortedMembers` give.
- Merging.MergeRoundTrip: keys that strcmp and the folded order arrange differently; `Merging.ArrivesExactlyWhenConcordant` says that some pair of documents with such keys fails.
- Conformance.TextAccepted: literals of lone surrogates, which the grammar of RFC 8259 allows and the code rejects (`Unicode.RejectsExactlyLoneSurrogates`).
- Acceptance.AcceptedExactlyWhenLax: what may stand between quotes is given by the two passes of the decoder, and what strtod takes by `Grammar.Numerics`.
- Faults.FaultPosition: the kinds of errors are those of the lemmas beside it; a text like `1-2`, of which strtod takes only the first part, is none of them, and that there are no others is not stated.
- SlotRuns.InformRun: is about an informer that no other thread interrupts.
- Comparing.ComparisonsAgree: is about trees that share no node, as `Comparing.CompareDecidesAlike`; `Equality.SharedNodes` says what sharing changes.
- Copying.Delete: the strings and keys that cJSON_Delete frees, and the flag for constant keys, are not tracked; nodes are.
- Printing.PrintBuffer.PrintValue: asks for texts without NUL inside, as C strings are; a NULL key or string, printed as an empty string, is not modelled.
- Edits of whole trees in place: `apply_patch`, `merge_patch` and the sorting inside `compare_json` are modelled on values; the list edits, the sort and the resolution they consist of are proved on the heap.
- The patch's own value is sorted by a test as well; that change is not tracked.
- Case-sensitive entry points of `cJSON_Utils.c`, and the creation helpers and type tests of `cJSON.c`.
- Allocation failure and allocator hooks; only the reallocating growth of the print buffer is modelled.
- Conversion of numbers to and from text, the locale's decimal point, NaN and infinities.
- Bit masks and shifts in the UTF-16 and UTF-8 arithmetic are written as remainders and quotients.
- The nested sorting that `create_patches` and `generate_merge_patch` leave behind in their arguments.
- The text that the websocket handlers send and print, and the rest of `embedded_c.c`; the HTTP server itself, whose source is not part of this model.
