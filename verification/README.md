# Verified models of cJSON, cJSON_Utils, the Hermes planner and the WebSocket slots

This project models three parts of the repository and proves what they promise.

**cJSON and cJSON_Utils.** JSON documents are values of the datatype `Json`; what a document means once the
order of object members is forgotten is its `Meaning`. The code is modelled twice: as functions that say what
each operation gives, and as methods with the source's own loops, buffers and links that are proved to compute
those functions. The laws are then proved about the functions.

- `CStrings`, `JsonTree`, `KeySort`, `Comparison`: key comparison, trees, the mergesort and the two comparisons.
- `Pointers`, `Patching`, `PatchStandard`, `PatchRefinement`: JSON Pointer and the application of JSON patches,
  against RFC 6901 and RFC 6902 stated on meanings.
- `PatchRuns`: arrays of patches, their first failure and what it leaves, and malformed patches.
- `PatchGeneration`, `PatchRoundTrip`, `FoldedRoundTrip`, `PatchLimits`: the generation of patches, that applying
  them reaches the goal, also on keys in any case, and where it does not.
- `MergePatching`, `NodeMerging`: JSON Merge Patch against RFC 7396, generation and round trip, and the merge over
  nodes.
- `Decimals`, `Utf8`, `Rendering`, `BufferedPrinting`: integers, `\u` escapes, the text of a tree, and printing
  into growing and fixed buffers.
- `ParserGrammar`, `BufferedParsing`, `PrintParseRoundTrip`, `Minifying`, `MinifiedParsing`: the parser as a grammar
  and as it runs over its buffer, the round trip, the in-place minifier, and that minified documents read the same.
- `JsonText`, `TextReading`, `NestingRefused`, `PrintLayouts`: JSON text as RFC 8259 describes it, with all its ways to
  write a value, that every such text within the nesting limit reads as what it stands for and others do not, and
  printed text as one of its spellings.
- `ChildLists`, `ListSort`, `StaleHeads`, `Duplication`: heap nodes in doubly linked child lists, the relinking sort,
  what it does to operations that come after it, copying.

**Hermes.** `Transforms`, `Needs`, `PlanLog`, `Countries`: resources, their conversion, how needs are worked
out, and the recursive search that plans; `TradeEntries`, `TradeManagement`, `Settlements`: entries, the
manager's matching and what a settlement does to both countries.

**WebSocket slots.** `WebSocketSlots` is the protocol as a state machine over all interleavings of connect,
ready, close and informer steps; `WebSocketClients` has the handlers over the table of clients, and `WebSocketRounds`
says whom the informer reaches.

*Plain keys* are distinct within each object and have no upper-case letter, no `~`, no `/` and no zero byte.
A *character* stands for one byte. Numbers are integers below 10^15 in magnitude, which `"%1.15g"` prints as
plain decimals.

Where code and documentation part, the model follows the code, and a lemma says exactly where they part:
the index reader (`Pointers.DecodeIndexExact`), the pointer encoder and decoder (`Pointers.EncodeExact`,
`Patching.DecoderDeparts`, `PatchLimits.TokenNamesKey`), moves (`PatchStandard.Departs`), the head of a sorted list
(`ListSort.SortObject`, `StaleHeads.TestThenDetach`), null members in merge patches
(`MergePatching.MergeRoundTrip`), houses that rounding leaves needed (`Needs.HousesAffordable`,
`PlanLog.WhenPlanStandsStill`), electronics and housing in trades (`Settlements.SettlementConserves`).

## Model

| member | source | states |
|---|---|---|
| CStrings.CompareStrings | civetweb-1.15/examples/rest/cJSON/cJSON_Utils.c:73-100 | the loop returns the difference of the first bytes that differ, folded to lower case unless case counts, zero when both strings end together |
| CStrings.CompareZero | civetweb-1.15/examples/rest/cJSON/cJSON_Utils.c:73-100 | comparing is zero exactly on strings that are equal after folding |
| CStrings.CompareAntisymmetric | civetweb-1.15/examples/rest/cJSON/cJSON_Utils.c:73-100 | swapping the strings negates the comparison |
| CStrings.CompareTransitive | civetweb-1.15/examples/rest/cJSON/cJSON_Utils.c:73-100 | the order is transitive, strictly if either step is strict |
| KeySort.SortAscends | civetweb-1.15/examples/rest/cJSON/cJSON_Utils.c:460-568 | without case sensitivity the sorted list is in ascending key order, for every list of keys |
| KeySort.FirstStays | civetweb-1.15/examples/rest/cJSON/cJSON_Utils.c:460-568 | the first element of a list stays first exactly when its key is strictly smaller than every other; a tie puts the later one in front |
| KeySort.SortIgnoresCaseFlag | civetweb-1.15/examples/rest/cJSON/cJSON_Utils.c:474-482 | on plain keys the case flag, which only the test for a sorted list looks at, makes no difference |
| KeySort.SortPlain | civetweb-1.15/examples/rest/cJSON/cJSON_Utils.c:570-577 | sorting an object with plain keys gives strict key order and the same meaning |
| ListSort.IsSorted | civetweb-1.15/examples/rest/cJSON/cJSON_Utils.c:474-482 | the walk finds out exactly whether neighbours are in strict order |
| ListSort.FindMiddle | civetweb-1.15/examples/rest/cJSON/cJSON_Utils.c:484-497 | the slow pointer stops at place (n + 1) / 2 |
| ListSort.Split | civetweb-1.15/examples/rest/cJSON/cJSON_Utils.c:498-502 | the list is cut in two well-linked lists in front of its middle |
| ListSort.MergeLists | civetweb-1.15/examples/rest/cJSON/cJSON_Utils.c:509-567 | relinking two sorted chains gives the chain of their merge, NULL-terminated, each node behind the first naming its predecessor; `prev` of the first node is left as it was |
| ListSort.SortList | civetweb-1.15/examples/rest/cJSON/cJSON_Utils.c:460-568 | the chain afterwards is exactly the mergesort of the nodes (a permutation), NULL-terminated and well linked inside; no other node is touched; the head keeps the `prev` it had |
| ListSort.SortObject | civetweb-1.15/examples/rest/cJSON/cJSON_Utils.c:570-577 | the children are the sorted children; a first child that has come from further back still has another child before it, so a well-formed list stays well-formed if and only if the first child is still first, and ignoring case that is when its key is strictly smallest |
| StaleHeads.TestThenDetach | civetweb-1.15/examples/rest/cJSON/cJSON_Utils.c:617-618 | after a test has sorted an object, removing a member leaves a list if and only if the member is not a first child the sort has brought there; ignoring case: if and only if another child is removed or the old first child had the smallest key |
| StaleHeads.Run | civetweb-1.15/examples/rest/cJSON/cJSON_Utils.c:373-402 | over any run of tests, removals and additions on one object the children stay in a list and are what the run says, as long as no step removes a first child with another before it |
| StaleHeads.CircleAfterTest | civetweb-1.15/examples/rest/cJSON/cJSON_Utils.c:806-811 | an input where one does: testing {"b":1,"a":2} and then removing a leaves b pointing to itself |
| ChildLists.Item.GetArrayItem | civetweb-1.15/examples/rest/cJSON/cJSON.c:1744-1761 | the child at an index, null past the end |
| ChildLists.Item.GetObjectItem | civetweb-1.15/examples/rest/cJSON/cJSON.c:1773-1799 | the first child whose key compares equal, null exactly when there is none, in lists whose head is out of order too |
| ChildLists.Item.AddItemToArray | civetweb-1.15/examples/rest/cJSON/cJSON.c:1845-1872 | the children become the old children and the new one behind them, in a well-formed doubly linked list |
| ChildLists.Item.InsertItemInArray | civetweb-1.15/examples/rest/cJSON/cJSON_Utils.c:668-702 | the new child stands in front of the old child at that place; just behind the last it is appended; further back nothing changes and the call fails |
| ChildLists.Item.InsertAt | civetweb-1.15/examples/rest/cJSON/cJSON.c:2142-2169 | a negative place changes nothing, a place past the end appends, any other inserts |
| ChildLists.Item.DetachItemViaPointer | civetweb-1.15/examples/rest/cJSON/cJSON.c:2072-2100 | exactly this child leaves the children and points nowhere afterwards; what is left is a list if and only if the child is not a first child with another child before it, and then a circle is closed |
| ChildLists.Item.DetachItemFromObject | civetweb-1.15/examples/rest/cJSON/cJSON.c:2117-2129 | the first child with the name is detached, or null is returned and nothing changes |
| ChildLists.Item.DetachItemFromArray | civetweb-1.15/examples/rest/cJSON/cJSON.c:2102-2110 | the child at an index is detached, or null is returned and nothing changes |
| ChildLists.Item.ReplaceItemViaPointer | civetweb-1.15/examples/rest/cJSON/cJSON.c:2171-2204 | the replacement takes exactly the place of the child, which is left detached |
| Duplication.Duplicate | civetweb-1.15/examples/rest/cJSON/cJSON.c:2551-2628 | a recursive copy spells the same tree with nodes that are all fresh, in well-formed lists whatever `prev` said in the original, and compares equal to it; a shallow copy has no children |
| Comparison.CompareDecidesMeaning | civetweb-1.15/examples/rest/cJSON/cJSON.c:2800-2923 | on valid trees with distinct keys the case-sensitive comparison is true exactly when both mean the same up to member order |
| Comparison.CompareIsEquivalence | civetweb-1.15/examples/rest/cJSON/cJSON.c:2800-2923 | there it is reflexive, symmetric and transitive |
| Comparison.CompareJsonDecides | civetweb-1.15/examples/rest/cJSON/cJSON_Utils.c:579-665 | the comparison that sorts both objects and walks them in step decides the same equality on plain keys, whatever the case flag |
| Pointers.ComparePointersLoop | civetweb-1.15/examples/rest/cJSON/cJSON_Utils.c:102-136 | the loop computes the comparison of a name with a pointer token |
| Pointers.ComparePointersDecodes | civetweb-1.15/examples/rest/cJSON/cJSON_Utils.c:102-136 | with case sensitivity it is true exactly when the token is validly escaped and decodes to the name |
| Pointers.DecodeArrayIndexLoop | civetweb-1.15/examples/rest/cJSON/cJSON_Utils.c:254-279 | the loop computes the index reader |
| Pointers.DecodeIndexExact | civetweb-1.15/examples/rest/cJSON/cJSON_Utils.c:254-279 | exactly where the reader agrees with the index syntax of RFC 6901, for every token: it differs on the empty token, read as 0, and on tokens that start with a digit from 1 to 9 and go on with a character above '9' and none below '0' ('1a' is read as an index) |
| Pointers.SelectChild | civetweb-1.15/examples/rest/cJSON/cJSON_Utils.c:293-317 | one step selects the child by index or by the first name the token matches |
| Pointers.GetItemFromPointer | civetweb-1.15/examples/rest/cJSON/cJSON_Utils.c:281-326 | the walk over all tokens ends at the node the pointer denotes, or fails |
| Pointers.EncodeStringAsPointer | civetweb-1.15/examples/rest/cJSON/cJSON_Utils.c:155-176 | the bytes written for a key, those left over in memory included, and nothing outside them |
| Pointers.EncodeExact | civetweb-1.15/examples/rest/cJSON/cJSON_Utils.c:155-176 | that is RFC 6901's escape, whatever memory held, exactly for keys without '~' and '/'; those are copied |
| Pointers.FindPointerFromObjectTo | civetweb-1.15/examples/rest/cJSON/cJSON_Utils.c:179-239 | the string built is the token path of the target node |
| Pointers.PointerRoundTrip | civetweb-1.15/examples/rest/cJSON/cJSON_Utils.c:179-326 | for every node of a tree with distinct '/'-free keys, following its pointer gives back that node if and only if no key on the way has a '~' |
| Patching.DecodePointerInPlace | civetweb-1.15/examples/rest/cJSON/cJSON_Utils.c:339-371 | the in-place loop leaves what the decoder function says |
| Patching.DecodedPlain | civetweb-1.15/examples/rest/cJSON/cJSON_Utils.c:339-371 | it is the identity on plain keys |
| Patching.DecoderDeparts | civetweb-1.15/examples/rest/cJSON/cJSON_Utils.c:339-371 | two inputs on which it is not RFC 6901's decoder: "~1" and "~0b" |
| Patching.Document.ApplyPatches | civetweb-1.15/examples/rest/cJSON/cJSON_Utils.c:1011-1067 | on values: the document and the status after a patch array are those of the fold up to the first patch that fails, a failing test included (`PatchRuns.FirstFailure`); something other than an array is refused with status 1 and changes nothing; on nodes this holds as long as no patch detaches a first child that an earlier test has moved there (`StaleHeads.Run`) |
| PatchRefinement.DetachMatches | civetweb-1.15/examples/rest/cJSON/cJSON_Utils.c:406-457 | detaching along a path removes exactly what the standard's remove does and hands out the value that stood there |
| PatchRefinement.AddMatches | civetweb-1.15/examples/rest/cJSON/cJSON_Utils.c:934-996 | the common tail of add, replace, move and copy is the standard's add |
| PatchRefinement.RemoveThenAdd | civetweb-1.15/examples/rest/cJSON/cJSON_Utils.c:862-932 | replacing is removing and adding: the library's way of carrying out replace gives the standard's result |
| PatchRefinement.ApplyPatchMatches | civetweb-1.15/examples/rest/cJSON/cJSON_Utils.c:782-1009 | on plain keys an operation gives status 0 exactly when the operation of RFC 6902 succeeds, and then its result, with the library's own index reader, if and only if it is not one of these: a move of an array element into the one behind it, or a move or copy onto the document itself from a place that exists |
| PatchRefinement.ApplyPatchConforms | civetweb-1.15/examples/rest/cJSON/cJSON_Utils.c:782-1009 | the same if-and-only-if with the standard's index syntax, along paths whose indices the reader reads right |
| PatchStandard.RelocateInto | civetweb-1.15/examples/rest/cJSON/cJSON_Utils.c:862-996 | detaching a value and adding it at a path that goes on from where it was succeeds exactly when the value is an array element, another stands behind it and the rest of the path can be added to in that one |
| PatchRefinement.MoveIntoNext | civetweb-1.15/examples/rest/cJSON/cJSON_Utils.c:862-996 | an input on which code and RFC 6902 part: on [1,{}] moving /0 to /0/x is an error by section 4.4, the code returns status 0 and [{x:1}] |
| PatchRuns.ApplyPatchSays | civetweb-1.15/examples/rest/cJSON/cJSON_Utils.c:782-1009 | the status of every patch exactly, whether or not the standard agrees (1 for a test, 13 nothing to remove or replace, 5 nothing to move or copy, 9, 11 and 10 for no container, no index and too large an index), and what one that fails leaves: everything, except that a move has taken out what it found |
| PatchRuns.ApplyAllMatches | civetweb-1.15/examples/rest/cJSON/cJSON_Utils.c:1011-1067 | for arrays of all six operations none of which is carried out otherwise at its turn: status 0 exactly when the sequence of operations of RFC 6902 succeeds, and then the document means its result |
| PatchRuns.ApplyAllConforms | civetweb-1.15/examples/rest/cJSON/cJSON_Utils.c:1011-1067 | the same with the standard's index syntax, where every operation that gets its turn has regular paths |
| PatchRuns.FirstFailure | civetweb-1.15/examples/rest/cJSON/cJSON_Utils.c:1029-1033 | where the first k operations give a document and the next is an error: the status is that operation's, later patches do not matter, and the document is what that operation leaves of it |
| PatchRuns.FailedTest | civetweb-1.15/examples/rest/cJSON/cJSON_Utils.c:806-811 | so a failing test ends the run with status 1 and the document the patches before it give |
| PatchRuns.RunOfPatches | civetweb-1.15/examples/rest/cJSON/cJSON_Utils.c:1027-1036 | the same for patches of any shape on any tree, through any chain of documents that each come of the one before |
| PatchRuns.MalformedPatch | civetweb-1.15/examples/rest/cJSON/cJSON_Utils.c:788-992 | a patch that lacks a part or has a wrong one is refused with the status for it, 2, 3, 1, 7, 4 or 5, and the document unchanged, except that a replacement without a value has taken the old value out |
| PatchGeneration.PatchList.Create | civetweb-1.15/examples/rest/cJSON/cJSON_Utils.c:1114-1252 | the recursive walk with its loops appends exactly the patches of the specification |
| PatchRoundTrip.CreatePatchesEncode | civetweb-1.15/examples/rest/cJSON/cJSON_Utils.c:1069-1252 | every patch generated is a well-formed RFC 6902 operation, and together they encode a plan of edits |
| PatchRoundTrip.PlanReaches | civetweb-1.15/examples/rest/cJSON/cJSON_Utils.c:1114-1252 | carrying out that plan by RFC 6902 turns the meaning of `from` into the meaning of `to`, under every index reader that reads decimals, the standard's and the library's included |
| PatchRoundTrip.DiffApplyRoundTrip | civetweb-1.15/examples/rest/cJSON/cJSON_Utils.c:782-1038 | on plain keys, applying the patches generated from `from` to `to` to any document that means what `from` means, with well-formed child lists (a fresh copy; generating sorts `from` itself), returns status 0 and a document that means what `to` means |
| PatchRoundTrip.NoPatchesIffEqual | civetweb-1.15/examples/rest/cJSON/cJSON_Utils.c:1114-1252 | no patch is generated exactly when both documents mean the same |
| FoldedRoundTrip.DiffApplyAnyCase | civetweb-1.15/examples/rest/cJSON/cJSON_Utils.c:782-1038 | without regard to case, keys in any case: for documents whose keys stay distinct in lower case and hold no '~' and no '/', applying the generated patches to any document equal to `from` returns status 0 and a document equal to `to`, where equal is what compare_json says |
| FoldedRoundTrip.CompareFolded | civetweb-1.15/examples/rest/cJSON/cJSON_Utils.c:579-665 | without regard to case compare_json does not tell a document from the one with its keys in lower case |
| PatchLimits.OrdersDisagree | civetweb-1.15/examples/rest/cJSON/cJSON_Utils.c:474-482 | why not with case: for {a,B} and {B,a}, which are equal, the generated patches add B and remove it again, with status 0 |
| PatchLimits.CaseMisdirectsPatch | civetweb-1.15/examples/rest/cJSON/cJSON_Utils.c:442 | two keys that differ in case only: removing the second takes out the first, with status 0 |
| PatchLimits.TokenNamesKey | civetweb-1.15/examples/rest/cJSON/cJSON_Utils.c:155-371 | for every key without '/': the last token written for it adds or removes that very key if and only if no '~' stands before its last character |
| PatchLimits.TildeStopsPatch | civetweb-1.15/examples/rest/cJSON/cJSON_Utils.c:155-326 | below a key '~' a generated patch leads nowhere and fails with status 13 |
| MergePatching.MergePatchLoop | civetweb-1.15/examples/rest/cJSON/cJSON_Utils.c:1294-1351 | on values: the loop of detaching, recursing and appending computes the specification |
| NodeMerging.Merge | civetweb-1.15/examples/rest/cJSON/cJSON_Utils.c:1294-1351 | over nodes, with case: the result stands in well-formed lists, made of the target's nodes and fresh ones, and spells what the specification gives for the trees target and patch spell; the patch is not touched |
| MergePatching.MergePatchConforms | civetweb-1.15/examples/rest/cJSON/cJSON_Utils.c:1294-1351 | on exact distinct keys that is the MergePatch function of section 2 of RFC 7396, up to member order |
| MergePatching.MergeTwice | civetweb-1.15/examples/rest/cJSON/cJSON_Utils.c:1294-1351 | merging a patch in a second time changes nothing |
| MergePatching.GenerateMergePatchLoop | civetweb-1.15/examples/rest/cJSON/cJSON_Utils.c:1363-1439 | the join loop over both sorted objects computes the specification |
| MergePatching.GeneratedMeaning | civetweb-1.15/examples/rest/cJSON/cJSON_Utils.c:1363-1439 | no patch (the null pointer) exactly for equal objects, otherwise the difference of both values |
| MergePatching.MergeRoundTrip | civetweb-1.15/examples/rest/cJSON/cJSON_Utils.c:1294-1439 | merging the generated patch into `from` (with well-formed child lists, a fresh copy; generating sorts `from` itself) gives `to` if and only if the two are not equal objects and every null member of `to` (through objects) is in `from` already |
| Utf8.ParseHex4Loop | civetweb-1.15/examples/rest/cJSON/cJSON.c:541-574 | four hexadecimal digits, zero if one is none |
| Utf8.EncodeLoop | civetweb-1.15/examples/rest/cJSON/cJSON.c:645-686 | the bytes of the code point are written, nothing else changes |
| Utf8.ConvertLiteral | civetweb-1.15/examples/rest/cJSON/cJSON.c:578-696 | the bytes of the literal are written at the output position and the length of the literal is returned, zero and no byte on failure |
| Utf8.EncodeIsUtf8 | civetweb-1.15/examples/rest/cJSON/cJSON.c:615-686 | for every Unicode scalar value the bytes are the one sequence that section 3 of RFC 3629 decodes to it |
| Utf8.LiteralIsUtf8 | civetweb-1.15/examples/rest/cJSON/cJSON.c:578-696 | a valid escape or surrogate pair gives the UTF-8 form of what it denotes; with hexadecimal digits in place, failure is exactly a lone or mismatched surrogate; digits that are none read as zero |
| BufferedPrinting.PrintBuffer.Ensure | civetweb-1.15/examples/rest/cJSON/cJSON.c:374-459 | true exactly when the need and one more byte fit the capacity; then there is room, and what was written is still there |
| BufferedPrinting.PrintBuffer.UpdateOffset | civetweb-1.15/examples/rest/cJSON/cJSON.c:462-472 | the offset moves to the end of the text |
| BufferedPrinting.PrintBuffer.PrintString | civetweb-1.15/examples/rest/cJSON/cJSON.c:828-947 | the escaped, quoted, terminated string stands at the offset; success depends on exactly its length |
| BufferedPrinting.PrintBuffer.WriteString | civetweb-1.15/examples/rest/cJSON/cJSON.c:895-946 | the copying pass writes exactly the bytes the counting pass counted |
| BufferedPrinting.PrintBuffer.PrintValue | civetweb-1.15/examples/rest/cJSON/cJSON.c:1268-1339 | printing fails exactly when an invalid node is inside or text, terminator and one byte do not fit; otherwise the pure rendering stands at the old offset, earlier bytes unchanged |
| BufferedPrinting.PrintBuffer.PrintArray | civetweb-1.15/examples/rest/cJSON/cJSON.c:1436-1495 | the same for arrays |
| BufferedPrinting.PrintBuffer.PrintObject | civetweb-1.15/examples/rest/cJSON/cJSON.c:1607-1718 | the same for objects |
| BufferedPrinting.Print | civetweb-1.15/examples/rest/cJSON/cJSON.c:1088-1161 | the text returned is the pure rendering, whatever growth happened on the way |
| BufferedPrinting.PrintBuffered | civetweb-1.15/examples/rest/cJSON/cJSON.c:1163-1191 | the size of the first buffer makes no difference to the text |
| BufferedPrinting.PrintPreallocated | civetweb-1.15/examples/rest/cJSON/cJSON.c:1193-1210 | true exactly when the buffer has two bytes more than the rendering, and then it holds that rendering |
| BufferedParsing.ParseBuffer.SkipWhitespace | civetweb-1.15/examples/rest/cJSON/cJSON.c:964-982 | every byte up to the space character is passed, the last byte never |
| BufferedParsing.ParseBuffer.SkipBom | civetweb-1.15/examples/rest/cJSON/cJSON.c:985-998 | a byte order mark is passed if there is enough text behind it |
| BufferedParsing.ParseBuffer.CopyNumber | civetweb-1.15/examples/rest/cJSON/cJSON.c:282-318 | at most 63 number characters are copied out |
| BufferedParsing.ParseBuffer.ParseNumber | civetweb-1.15/examples/rest/cJSON/cJSON.c:267-341 | the integer read and how far |
| BufferedParsing.ParseBuffer.ScanLiteral | civetweb-1.15/examples/rest/cJSON/cJSON.c:712-742 | the first pass finds the closing quote and counts the bytes not needed |
| BufferedParsing.TwoPassesAgree | civetweb-1.15/examples/rest/cJSON/cJSON.c:712-803 | for every literal the first pass accepts, what the second pass writes in all is no longer than what the first reserved, even when a malformed \u makes them disagree on where escapes begin |
| BufferedParsing.ParseBuffer.CopyLiteral | civetweb-1.15/examples/rest/cJSON/cJSON.c:745-803 | the second pass writes the unescaped text and never a byte outside the output, also when it fails half-way |
| BufferedParsing.ParseBuffer.ParseString | civetweb-1.15/examples/rest/cJSON/cJSON.c:699-826 | both passes together give what the grammar says, which for every literal of RFC 8259 is the text it stands for (`TextReading.LiteralReads`), and the buffer allocated is large enough |
| BufferedParsing.ParseBuffer.ParseValue | civetweb-1.15/examples/rest/cJSON/cJSON.c:1213-1265 | the value the grammar gives, with the offset where the rest starts and the depth as before |
| BufferedParsing.ParseBuffer.ParseArray | civetweb-1.15/examples/rest/cJSON/cJSON.c:1342-1433 | the same for arrays |
| BufferedParsing.ParseBuffer.ParseObject | civetweb-1.15/examples/rest/cJSON/cJSON.c:1498-1604 | the same for objects |
| BufferedParsing.ParseWithOpts | civetweb-1.15/examples/rest/cJSON/cJSON.c:1001-1078 | the whole document, refusing text behind it when asked to; the parse end is where the text behind the value starts, and lies in the text when there is no value |
| PrintParseRoundTrip.ParsePrintedString | civetweb-1.15/examples/rest/cJSON/cJSON.c:699-947 | reading a printed string gives the string back and leaves what followed |
| PrintParseRoundTrip.ParsePrintedNumber | civetweb-1.15/examples/rest/cJSON/cJSON.c:267-536 | reading a printed integer gives it back |
| PrintParseRoundTrip.PrintParse | civetweb-1.15/examples/rest/cJSON/cJSON.c:956-1718 | parsing what was printed, formatted or not, gives the same tree in the same order exactly when it is nested no deeper than CJSON_NESTING_LIMIT; otherwise it is rejected |
| TextReading.LiteralReads | civetweb-1.15/examples/rest/cJSON/cJSON.c:699-826 | a string literal, each character written plainly, by a short escape, as \uXXXX in either case or as a surrogate pair, reads as the UTF-8 bytes of its characters, up to the first zero byte |
| TextReading.EscapeRefused | civetweb-1.15/examples/rest/cJSON/cJSON.c:760-805 | exactly which escapes are refused: a letter that is none of the eight and not u, and of the latter those cut short and lone or mismatched surrogates |
| NestingRefused.ReadsExactly | civetweb-1.15/examples/rest/cJSON/cJSON.c:1001-1065 | every text of the grammar of RFC 8259 with integers for numbers, with any white space around every token and with or without a byte order mark, is accepted exactly if it is nested within the limit, and then reads as the tree it stands for; text and tree are defined without the parser |
| TextReading.AcceptedDocument | civetweb-1.15/examples/rest/cJSON/cJSON.c:1342-1350 | whatever text is accepted, JSON or not, the tree is nested no deeper than the limit |
| PrintLayouts.PrintedAsLaid | civetweb-1.15/examples/rest/cJSON/cJSON.c:1268-1340 | printed text is the text of one spelling of the tree: which characters are escaped and how, no leading zeros, and where formatting puts line breaks, tabs and blanks |
| PrintLayouts.PrintedIsJson | civetweb-1.15/examples/rest/cJSON/cJSON.c:1088-1140 | that spelling is JSON by the standard and stands for the tree printed |
| Minifying.MinifyUndoesFormat | civetweb-1.15/examples/rest/cJSON/cJSON.c:2630-2698 | minifying formatted text gives, byte for byte, the unformatted text of the same tree |
| Minifying.MinifyInPlace | civetweb-1.15/examples/rest/cJSON/cJSON.c:2630-2698 | in place, writing never ahead of where it reads: the text is replaced by its minified form and nothing behind it changes |
| MinifiedParsing.MinifyKeepsDocument | civetweb-1.15/examples/rest/cJSON/cJSON.c:2630-2698 | for every zero-free text accepted to its end, minifying succeeds and the minified text is accepted and reads as the same document |
| TextReading.MinifiesDocument | civetweb-1.15/examples/rest/cJSON/cJSON.c:2630-2698 | a text with white space, line comments and block comments in any of its gaps is minified to exactly the same text without gaps, and that reads as the tree the commented text stands for |
| MinifiedParsing.MinifyJoinsNumbers | civetweb-1.15/examples/rest/cJSON/cJSON.c:2630-2698 | without the check for the end this fails: '1 2' reads as 1, its minified form as 12 |
| Transforms.AlloyTransform | Hermes/Transforms/AlloyTransform.java:13-40 | succeeds exactly with a person and two elements, makes one alloy and one waste, changes nothing otherwise |
| Transforms.ElectronicsTransform | Hermes/Transforms/ElectronicsTransform.java:13-46 | succeeds exactly with a person, three elements and two alloys, makes two electronics and one waste, changes nothing otherwise |
| Transforms.HousingTransform | Hermes/Transforms/HousingTransform.java:13-52 | succeeds exactly with five people, one element, five timber and three alloys, makes a house and its waste, changes nothing otherwise |
| Transforms.RunConserves | Hermes/Transforms/ElectronicsTransform.java:22-46 | any run of conversions keeps amounts non-negative and keeps population, metal, wood and both waste balances |
| Transforms.RunCounts | Hermes/Transforms/HousingTransform.java:24-52 | the amounts after a run depend only on how often each conversion was made |
| Transforms.TotalsDetermine | Hermes/Transforms/ElectronicsTransform.java:22-46 | there are no other conserved quantities: equal totals determine the conversions between two stocks |
| Countries.Country.CalculateStatus | Hermes/Country.java:883-1162 | the three lists are those of the declarative account of needs, deficits and surpluses |
| Needs.AlloysAffordable | Hermes/Country.java:333-364 | the loop over the alloy deficit never fails, and afterwards the deficit is 0 |
| Needs.HousesAffordable | Hermes/Country.java:377-413 | the loop over the housing deficit never fails; afterwards the deficit is 0, and houses are still needed exactly when population % 4 >= population / 4, never from 16 people on |
| Needs.HouseDemandTight | Hermes/Country.java:1019-1092 | the deficits of timber, elements and alloys are the least additions with which the missing houses can be built |
| Needs.ElectronicsAffordable | Hermes/Country.java:465-502 | the loop over half the electronics deficit never fails, and afterwards electronics are not needed |
| Needs.ElectronicsDemandTight | Hermes/Country.java:1019-1073 | for electronics the deficits are the least additions for as many transforms as electronics are missing, twice as many as are made |
| Needs.AlloyDemandTight | Hermes/Country.java:1046-1056 | the deficit of elements is the least addition with which the missing alloys can be made |
| Needs.PeopleDemandTight | Hermes/Country.java:937-956 | the deficit of people is the least addition that will do, except with fewer than five people and more than five houses, where it will not do |
| Needs.SurplusWhen | Hermes/Country.java:937-1092 | when there is something to spare of each good, in amounts |
| Needs.SurplusLeaves | Hermes/Country.java:937-1092 | what is left when all of it is given away |
| Countries.Country.GetHighestSurplusPosition | Hermes/Country.java:856-879 | the first place with the highest positive surplus, wastes aside; -1 exactly when there is none |
| Countries.Country.GetHighestResourcePosition | Hermes/Country.java:793-822 | the place of the first highest positive amount of another name; 0 when there is none |
| Countries.Country.GetLowestResource | Hermes/Country.java:825-853 | the first resource with the lowest amount (`PlanLog.AskedForLeast`), and what it is where amounts are negative |
| Countries.Country.MakeOffer | Hermes/Country.java:512-544 | the entry offers the first good with the highest surplus, failing that the first other good with the highest amount, failing that people; and of it as much as is needed or, if that is less, the surplus, which with no negative amounts is no more than there is |
| Countries.Country.AssignNewValues | Hermes/Country.java:708-788 | the amounts given and taken are booked as the branches say |
| PlanLog.DecidedFeasible | Hermes/Country.java:300-503 | whatever the amounts, every conversion the hierarchy of needs decides on can be made to the end |
| Countries.Country.GenerateNode | Hermes/Country.java:278-705 | the search ends, no transform in it fails, its map is extended without gaps, as far as both limits allow or to a failed trade or an optimal state, and each node follows from the stock before by the action it names and, if that is a trade, by the next of the outcomes the search is given |
| Countries.Country.Plan | Hermes/Country.java:216-257 | a schedule's map has exactly the keys 0..k with k at most depth and frontier |
| PlanLog.TradeBooked | Hermes/Country.java:512-590 | in every plan the trade after n others is booked with outcome n: the stock of its node is the one before plus what was given of the need (minus it for electronics and housing), minus what was taken of the good the entry offered, and nothing else; for surplus trades likewise |
| PlanLog.PlanDetermined | Hermes/Country.java:278-705 | a plan is determined by the stock it starts from and by how its trades end |
| PlanLog.PlanConserves | Hermes/Country.java:278-505 | between trades a plan conserves all totals and keeps amounts non-negative |
| PlanLog.PlanAchieves | Hermes/Country.java:333-503 | what each conversion node has achieved: no alloy missing, everyone with electronics, no house missing |
| PlanLog.PlanStandsStill | Hermes/Country.java:377-413 | once a plan decides on building no house at all it repeats that to its end |
| PlanLog.WhenPlanStandsStill | Hermes/Country.java:377-413 | that happens exactly when population / 4 houses stand and population % 4 >= population / 4 (and people are not needed) |
| TradeEntries.Entry.SetGiven | Hermes/Trade/Entry.java:98-103 | the first amount set stays |
| TradeEntries.Entry.SetTaken | Hermes/Trade/Entry.java:105-110 | the first amount set stays |
| TradeEntries.Entry.SetSuccessToTrue | Hermes/Trade/Entry.java:74-77 | success goes one way and the result says whether it changed |
| TradeManagement.TermsWithinOffers | Hermes/Trade/Manager.java:115-223 | neither side gives more than it offers under any of the three rules, the rounded exchange rate included |
| TradeManagement.TermsExact | Hermes/Trade/Manager.java:143-210 | the amounts of every deal, without the order of the rules: all of both offers if each meets the other's need; otherwise the partner is paid the smaller of what it needs and what is offered, and gives the largest whole number of its goods in that proportion |
| TradeManagement.NoDealExact | Hermes/Trade/Manager.java:187-205 | there is no deal exactly when the head's offer is at most what the partner needs, both needs are not met, and the offer is worth less than one |
| TradeManagement.SettledTerms | Hermes/Trade/Manager.java:143-223 | for every settled pair: both give all if both needs are met, otherwise the partner is never paid more than it needs; one side always gives everything; where the head does, it receives the largest whole number that its offer pays for |
| TradeManagement.Manager.Scan | Hermes/Trade/Manager.java:98-146 | the scan stops at the first perfect match, or else has the last offer that meets the need, or else the first of the largest |
| TradeManagement.Manager.Turn | Hermes/Trade/Manager.java:74-223 | one turn settles exactly one reciprocal pair of different countries on its terms, or puts the entry back, or drops it; entries settle at most once and what is settled stays settled |
| Settlements.SettlementConserves | Hermes/Country.java:708-788 | every resource keeps its two-country total exactly when each side adds what it is given; electronics and housing are subtracted instead |
| Settlements.SettlementAffordable | Hermes/Country.java:708-788 | a settlement overdraws neither country that can cover its offer |
| WebSocketSlots.EveryRunIsSafe | civetweb-1.15/examples/embedded_c/embedded_c.c:819-977 | in every run of possible events from the start `conn` is set exactly when state is not 0, no connection has two slots, and every informer write went to the connection it locked in |
| WebSocketSlots.LockedInStays | civetweb-1.15/examples/embedded_c/embedded_c.c:945-976 | a slot in state 3 keeps its connection and state until the informer releases it |
| WebSocketSlots.LockedInThroughRun | civetweb-1.15/examples/embedded_c/embedded_c.c:945-976 | so over any run without that release |
| WebSocketSlots.RejectedWhenFull | civetweb-1.15/examples/embedded_c/embedded_c.c:832-856 | a connection is rejected exactly when every slot is taken |
| WebSocketSlots.CloseWaits | civetweb-1.15/examples/embedded_c/embedded_c.c:917-942 | closing waits only for a write in progress to that connection, and can drop it once the informer has released it |
| WebSocketRounds.RoundAlone | civetweb-1.15/examples/embedded_c/embedded_c.c:945-977 | from every safe state at rest the informer's own steps can all be made and end at rest with exactly one write for each ready slot, in slot order, and nothing else changed |
| WebSocketRounds.RoundReaches | civetweb-1.15/examples/embedded_c/embedded_c.c:945-977 | with any other events in between: a connection that is ready when the round starts and is not closed before the informer looks at its slot has been written to when the informer is at rest again |
| WebSocketSlots.HandlersAssertions | civetweb-1.15/examples/embedded_c/embedded_c.c:860-942 | the assertions in the handlers hold: user data points to the connection's own slot, in state 1 before ready and above 0 while open |
| WebSocketClients.Clients.ConnectHandler | civetweb-1.15/examples/embedded_c/embedded_c.c:832-856 | the loop takes the first free slot and returns 1 exactly when there is none |
| WebSocketClients.Clients.ReadyHandler | civetweb-1.15/examples/embedded_c/embedded_c.c:859-871 | the step of the protocol; its assertions hold |
| WebSocketClients.Clients.CloseHandlerPass | civetweb-1.15/examples/embedded_c/embedded_c.c:917-938 | one pass of the waiting loop: dropped exactly when the slot is not in state 3 |
| WebSocketClients.Clients.InformLookStep | civetweb-1.15/examples/embedded_c/embedded_c.c:959-965 | the first locked section |
| WebSocketClients.Clients.InformWriteStep | civetweb-1.15/examples/embedded_c/embedded_c.c:967-971 | the write goes to the connection locked in, which is still open |
| WebSocketClients.Clients.InformReleaseStep | civetweb-1.15/examples/embedded_c/embedded_c.c:972-974 | the second locked section |

## Left out

- Patching.Document.ApplyPatches: the document is a value; a test sorts the objects it looks at on the real nodes, and a later patch that detaches a first child moved there breaks the list. That happens exactly in the runs `StaleHeads.SoundRun` excludes, proved for the children of one object; locating, replacing and copying at depth are modelled on values.
- PatchRoundTrip.DiffApplyRoundTrip: stated for plain keys, in both case modes; for keys in any case, without regard to case, `FoldedRoundTrip.DiffApplyAnyCase`; with regard to case capitals can defeat it (`PatchLimits.OrdersDisagree`). For '~' in keys there is the exact condition on a path's last token (`PatchLimits.TokenNamesKey`) and on the tokens before (`Pointers.PointerRoundTrip`), not on whole documents; for '/' the outcome depends on a byte the encoder never writes.
- FoldedRoundTrip.DiffApplyAnyCase: the document is a value, with well-formed child lists; keys with '~' or '/' are excluded as above.
- PatchRefinement.ApplyPatchMatches: "from" is a string and keys are plain; the document is a value, so well-formed child lists are taken for granted.
- PatchRefinement.ApplyPatchConforms: only along paths whose indices the code reads as the standard does; where it does not is stated by `Pointers.DecodeIndexExact`.
- PatchGeneration.PatchList.Create: both arguments are values, so the sorting of their objects in place is seen in the patches only.
- Comparison.CompareJsonDecides: the result is decided; that comparing sorts both arguments in place is stated for one object at a time by `ListSort.SortObject`.
- MergePatching.MergePatchLoop: on values; over nodes, with case, it is `NodeMerging.Merge`.
- NodeMerging.Merge: the case-sensitive mode only, where a member keeps its key; without regard to case the library also gives the member the patch's spelling. A new object is created with its key, which the source sets when it adds the object.
- MergePatching.GenerateMergePatchLoop: trees are values here, so the sorting of both arguments' members as a side effect of comparing and generating is seen in the result only.
- MergePatching.MergeRoundTrip: the target is a value, with well-formed child lists.
- Pointers.DecodeArrayIndexLoop: indices are unbounded; the wrap-around of `size_t` is not modelled.
- Pointers.EncodeStringAsPointer: for '/' the source writes only the second byte of the escape; the first is whatever memory held, which the specification takes as an input and `Token` takes as zero.
- BufferedParsing.ParseBuffer.ParseNumber: fractions, exponents and everything else `strtod` does beyond integers are outside the model and fail in it; `valueint` saturation is not modelled.
- NestingRefused.ReadsExactly: numbers are integers of at most 63 characters, read exactly; the source keeps a double, which rounds above 2^53. Texts outside the grammar are not classified, apart from escapes (`TextReading.EscapeRefused`) and nesting (`TextReading.AcceptedDocument`).
- TextReading.MinifiesDocument: a line comment ends with a line break; one that ends the text without it is left out.
- PatchRuns.ApplyAllMatches: plain keys and values, as for single patches; runs with a departing operation are covered by `PatchRuns.ApplyPatchSays` and `PatchRuns.RunOfPatches` only.
- BufferedParsing.ParseWithOpts: where no value can be read, the error position is only said to lie in the text.
- PrintParseRoundTrip.ParsePrintedNumber: integers below 10^15 in magnitude only.
- BufferedPrinting.PrintBuffer.PrintNumber: floating point, `sprintf` rounding, infinities, NaN and the locale's decimal point are not modelled.
- Duplication.Duplicate: reference and constant-string flags are not modelled.
- Allocation failure, allocation hooks, the global error pointer, raw nodes, null string values and freeing.
- Masks and shifts on code points are written as remainders and quotients.
- The pointer-identity shortcut and the null-pointer cases of cJSON_Compare.
- Minifying.MinifyInPlace: requires text whose strings and comments are finished; on other text the source runs past the terminator.
- Hermes: `long` amounts are unbounded integers; the exchange rate is exact instead of in doubles; sleeping, timers, queue capacity, withdrawal of entries, CSV reading and logging are not modelled. How a trade ends is an input of the search.
- Countries.Country.GenerateNode: when several surplus entries settle at once only one of them is booked, as in the source; the others' amounts are not followed up.
- TradeManagement.Manager.Turn: one iteration of the manager's loop is one atomic step over its queue.
- WebSocketSlots.EveryRunIsSafe: each locked section and each unlocked access is one step; the server is assumed to accept a connection once and to call ready and close for it in that order; sending of data and the data handler's output are not modelled.
- Creation helpers, type predicates, array constructors, `AlienInvasion.java`, dice tables, option parsing, sockets and the test programs: only easy members.
