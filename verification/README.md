# Models of the print controller's libraries and protocols

The repository drives a resin printer and carries the C libraries it is built on. This project models the parts whose
correctness is not visible from any one function, and proves what they are for:

- **JSON Patch, JSON Pointer and JSON Merge Patch** (cJSON_Utils): a document is a tree (`JsonTrees.Json`), its meaning
  (`Meaning`) forgets the order of members. Applying is proved to be RFC 6902 and RFC 7396 on meanings, and generating a
  patch and then applying it to give the target. Where the code does not do that, it is proved when exactly it does, and a
  document is given on which it goes wrong. What sorting does to the linked lists of a document, and so to what is added
  later, is followed by notes in the tree (JsonNotes).
- **The cJSON core**: the recursive-descent parser accepts the texts of a grammar after RFC 8259 and gives their trees, and
  so undoes the printer; the growing print buffer holds exactly the pure rendering, laid out as a reference lays it out that
  reads the unformatted text; child lists (sorting, editing, copying) are proved on linked nodes; minifying works in place,
  and leaves what a lexer keeps.
- **The HTTP parser**: a byte-by-byte reference, the looking-ahead parser proved against it with all its asserts, chunked
  bodies, trailers included, and whole messages one behind the other, in any cut.
- **SHA-1** against FIPS 180-4 and **two CRCs** against their shift registers and against long division.
- **The TCP session slab** and **the print handshake** of three threads.

Each source file with imperative code is modelled by methods, and by classes where it keeps state; their contracts tie
them to functions, and the laws are lemmas about those functions. The modules build on each other in this order:

| area | modules |
|---|---|
| strings and trees | CStrings, JsonTrees (Json.dfy), Items |
| pointers | JsonPointer, JsonPointerLaws, PointerDecode |
| lists | MergeSort, ListSort, ItemLists, ItemRuns, ItemCopies |
| comparing | JsonCompare |
| patches | Rfc6902, JsonPatchApply, JsonPatchRefines, JsonPatchStatus, JsonPatchGenerate, JsonPatchChanges, JsonPatchNeeds, JsonPatchLimits, DecodedNames, NameRuns, JsonPatchRuns, JsonPatchMembers, JsonPatchObjects, JsonPatchRoundTrip, JsonPatchCopies, JsonNotes, JsonPatchNotes, JsonPatchDocument |
| merge patches | Rfc7396, JsonMergePatch, JsonMergeRoundTrip, JsonMergeNames |
| text | JsonText, JsonLayout, JsonPrint, Utf16, JsonParse, JsonParser, JsonSpelling, JsonGrammar, JsonAccepts, JsonRoundTrip, Minify, MinifyLexed, MinifyParse |
| HTTP | HttpStates, HttpReference, HttpParser, HttpRuns, HttpBudget, HttpHeaders, HttpTrailers, HttpChunked, HttpHeads, HttpTargets, HttpStartLines, HttpMessages, HttpSwitches |
| SHA-1 | Fips180, Sha1Transform, Sha1Stream, Sha1Digest |
| CRC | Crc16, Crc64 |
| sessions | TcpSession |
| print handshake | DlpHandshake, GmFile, CommandQueue |

What the code does and its callers may not expect, each with a lemma or a contract below:

- detach_path always looks members up without regard to case, so a case-sensitive patch can remove the wrong member.
- decode_pointer_inplace does not undo the pointer encoder; names with ~ or / are only sometimes restored.
- generate_merge_patch walks by strcmp in both modes, and generates nested patches without regard to case; names with
  capital letters can be lost.
- A "test" sorts the object it looks at, and a member that a later patch of the same array adds to it can be lost.
- Sorting an object leaves its first prev naming the old last member or nothing, so an item added afterwards can be lost.
- cJSON_Minify takes an escaped backslash before a closing quote for an escaped quote.
- crypt_sha1 counts 2^32 bits too many for buffers of 2^29 bytes and more.
- A "move" to a place that does not exist has taken its value out already, and loses it; so does a "replace" without a value.
- A \u that four hexadecimal digits do not follow reads as a NUL, which ends the string.
- http_parser takes a 204 or 304 with a length, or chunked, to have a body, and lets the beginning of an option such as
  "c" hide the option behind its comma: "Connection: c,close" does not close.
- The retry limit in send_head is never reached, and GM_Read queues the last line twice.
- bmp_255 draws base layers without waiting for the handshake: into an exposure, if there are two or more.

Characters are bytes: a C string is the characters before its NUL. Numbers in JSON are integers; strtod is a parameter of
the parser (`Strtod`), assumed to consume between one character and the whole token, and to read back printed integers.
Text heights in the command file are parameters as sprintf gives them.

## Model

| member | source | states |
|---|---|---|
| JsonPatchRoundTrip.GenerateThenApplyIff | cJSON-master/cJSON_Utils.c:1038-1309 | In both modes, for any two documents with distinct sibling names and any copy of the first (members in any order): applying the generated patches returns 0 and leaves a document equal to the second up to member order exactly when, of every two objects that are compared, the names that are added, removed or replaced survive decode_pointer_inplace, and among the members of the copy with names equal up to case those that are removed or replaced stand in front of all others, each replaced one no later than its turn |
| JsonPatchCopies.EveryCopyIff | cJSON-master/cJSON_Utils.c:1038-1309 | So it is for every copy exactly when such names survive and, of the names equal up to case, none is removed or replaced, or all are and only the greatest is replaced |
| JsonPatchCopies.GenerateThenApply | cJSON-master/cJSON_Utils.c:1038-1309 | Under that condition the result is also equal for compare_json |
| JsonPatchCopies.RenamedByCase | cJSON-master/cJSON_Utils.c:430-481 | Renaming a member in letter case only is among what works in case-sensitive mode |
| JsonPatchObjects.ObjectOnlyIf | cJSON-master/cJSON_Utils.c:430-481 | One object: a run that ends right has lost no name, took only members it meant to take, and was right for every member that is compared further |
| JsonPatchObjects.ObjectIf | cJSON-master/cJSON_Utils.c:1203-1279 | And the other way round |
| JsonPatchObjects.NoneLost | cJSON-master/cJSON_Utils.c:359-481 | A run that ends right has no name that does not survive: the lightest of them would be touched by none of the changes |
| NameRuns.RightIffStanding | cJSON-master/cJSON_Utils.c:455-472 | Taking away the first name of a row whenever one is to go leaves the right names exactly when the names to go stand in front, each one that comes again no later than its turn |
| JsonPatchRuns.StepBelow | cJSON-master/cJSON_Utils.c:301-346 | A generated patch whose path goes down from a token does to the child what the patch without the token does, and nothing else |
| JsonPatchDocument.Transport | cJSON-master/cJSON_Utils.c:1038-1309 | The same equivalence through the imperative generator and the imperative applier, which keeps track of where every first prev points |
| JsonPatchChanges.ChangesRun | cJSON-master/cJSON_Utils.c:1141-1279 | Whatever the names are, the recursion of create_patches (array pairs, removals at one repeated index, appends, sorted member walk) finds operations that, as RFC 6902 reads them, lead from the meaning of one document to the meaning of the other |
| JsonPatchNeeds.ChangesNeeded | cJSON-master/cJSON_Utils.c:1141-1279 | Every generated operation stands where the documents differ: a member is added that only the second has and removed that only the first has, elements behind the end of the shorter array, and a value is replaced only by a different one that is not to be entered |
| JsonPatchNeeds.NoChangesIff | cJSON-master/cJSON_Utils.c:1141-1279 | Nothing is generated exactly when the documents mean the same |
| JsonPatchChanges.WrittenSays | cJSON-master/cJSON_Utils.c:1096-1134 | The operation object that compose_patch writes spells out the operation that was meant, path escapes included |
| JsonPatchRefines.ApplyPatchRefinesRfc6902 | cJSON-master/cJSON_Utils.c:807-1036 | For a patch object with the word, path, value and source of any of the six operations: apply_patch returns 0 exactly when RFC 6902 has a result, and then the document left means that result |
| JsonPatchRefines.DecodesWord | cJSON-master/cJSON_Utils.c:742-774 | Each of the six words that RFC 6902 gives to its operations is read as that operation |
| JsonPatchRefines.InvalidIff | cJSON-master/cJSON_Utils.c:742-774 | The operation is invalid exactly when "op" is missing, no string, or none of the six words |
| JsonPatchStatus.ApplyPatchAnswers | cJSON-master/cJSON_Utils.c:807-1036 | The status of every operation, by what the document means: 1 for a test that fails, 13 for nothing to remove or replace, 5 for nothing to move or copy, 9 for no container, 11 for a token that is no index, 10 for an index behind the end, and 0 exactly where RFC 6902 has a result; a failure leaves the meaning of the document alone, but a "move" to a place that does not exist loses its value |
| JsonPatchStatus.MalformedAnswers | cJSON-master/cJSON_Utils.c:816-950 | A patch without a path is status 2, without one of the six words 3, a move or copy without "from" 4, an addition without a value 7; a "replace" without a value is 7 as well, with the old value gone |
| JsonPatchRefines.DetachIsRemove | cJSON-master/cJSON_Utils.c:430-481 | detach_path removes exactly what "remove" removes and returns what stood there |
| JsonPatchRefines.AddIsDocAdd | cJSON-master/cJSON_Utils.c:959-1023 | The last part of apply_patch is "add": into an array at an index or at its end, or as an object member |
| JsonPatchRefines.ReplaceRefines | cJSON-master/cJSON_Utils.c:887-1023 | "replace" is a removal followed by an addition at the same path |
| JsonPatchRefines.MoveRefines | cJSON-master/cJSON_Utils.c:905-1023 | "move", with the value taken out before the target path is resolved |
| JsonPatchRefines.CopyRefines | cJSON-master/cJSON_Utils.c:905-1023 | "copy" |
| JsonPatchRefines.TestRefines | cJSON-master/cJSON_Utils.c:831-836 | "test" succeeds exactly when the values mean the same, and the document, whose objects it sorts, goes on meaning what it meant |
| JsonPatchRefines.RootRefines | cJSON-master/cJSON_Utils.c:838-885 | "add", "remove" and "replace" of the whole document |
| JsonPatchDocument.Document.Detach | cJSON-master/cJSON_Utils.c:430-481 | The method on the document with its notes leaves the document and returns the item that the function says |
| JsonPatchDocument.Document.Add | cJSON-master/cJSON_Utils.c:959-1023 | The addition with its error codes; a new member goes behind the item that the first prev names, or nowhere |
| JsonPatchDocument.Document.Apply | cJSON-master/cJSON_Utils.c:807-1036 | apply_patch: status, document and where every first prev points afterwards, tests included |
| JsonPatchDocument.Document.ApplyPatches | cJSON-master/cJSON_Utils.c:1038-1093 | Patches are applied in order until one fails; where everything that is added arrives, status and document are those of the patches in turn |
| JsonPatchNotes.ApplyErased | cJSON-master/cJSON_Utils.c:807-1036 | apply_patch on linked lists returns the status of apply_patch on trees, and leaves the same tree exactly when the object that the patch adds to still takes it at its end |
| JsonPatchNotes.EveryPointIff | cJSON-master/cJSON_Utils.c:1038-1093 | For a whole array of patches: after every one of them status and tree are those without linked lists exactly when everything that is added arrives |
| JsonPatchNotes.ArrivedRun | cJSON-master/cJSON_Utils.c:1038-1093 | In particular at the end |
| JsonPatchNotes.GentleRun | cJSON-master/cJSON_Utils.c:1038-1093 | On a document as it was parsed or duplicated everything arrives when sorting moves neither the first nor the last member of any object that a test comes across, so in particular without tests |
| JsonPatchNotes.TestThenAddLoses | cJSON-master/cJSON_Utils.c:831-836 | On {"b":1,"a":2} a test of the whole document and then adding "c" report success, and "c" is not there |
| JsonNotes.EraseLeft | cJSON-master/cJSON_Utils.c:604-690 | compare_json leaves the linked lists of a tree holding the tree it leaves, whatever the notes say |
| JsonNotes.LeftWell | cJSON-master/cJSON_Utils.c:604-690 | It keeps every list well when sorting moves neither the first nor the last member of the objects in it |
| JsonNotes.ArrivesIffLast | cJSON-master/cJSON.c:1952-1983 | add_item_to_array puts the new member behind all others exactly when the first prev names the last of them |
| JsonPatchGenerate.PatchList.ComposePatch | cJSON-master/cJSON_Utils.c:1096-1134 | One operation object is appended: op, path with its encoded suffix, value |
| JsonPatchGenerate.PatchList.CreatePatches | cJSON-master/cJSON_Utils.c:1141-1279 | The generator appends the written form of the changes, below the path it was given |
| JsonPatchGenerate.GeneratePatches | cJSON-master/cJSON_Utils.c:1281-1309 | The patch array of two documents |
| JsonPatchLimits.DecodedUpToCase | cJSON-master/cJSON_Utils.c:359-390 | A name comes back from encoding and decoding in place, in the comparison in use, exactly when it is restorable |
| JsonPatchLimits.AddRightIffRestorable | cJSON-master/cJSON_Utils.c:959-1023 | Adding a new member adds what RFC 6902 adds exactly when its name survives decode_pointer_inplace |
| JsonPatchLimits.TildeAndSlashAreLost | cJSON-master/cJSON_Utils.c:359-390 | The generated patches that add "a~b" and "a/b" to {} add "a~0" and "a~/", and report success |
| JsonPatchLimits.CaseBlindDetachIff | cJSON-master/cJSON_Utils.c:455-472 | "remove" and "replace", at any path whose last name survives decoding, do what RFC 6902 says exactly when the first member that matches the name up to case has that name |
| JsonPatchLimits.CaseBlindDetachGoesWrong | cJSON-master/cJSON_Utils.c:455-472 | A generated case-sensitive patch that removes the wrong member and reports success |
| JsonPatchLimits.AbsentNameIsRemoved | cJSON-master/cJSON_Utils.c:455-472 | Removing "/a" from {"A":1} in case-sensitive mode leaves {} and reports success, where RFC 6902 has an error |
| JsonPointerLaws.GetPointerUndoesFindPointer | cJSON-master/cJSON_Utils.c:198-259 | Resolving the pointer found for a node gives that node, in every tree with distinct sibling names, with any characters in them |
| JsonPointerLaws.FindPointerFromObjectTo | cJSON-master/cJSON_Utils.c:198-259 | The depth-first search returns the pointer to the target exactly when the target is a node below |
| JsonPointerLaws.LocateIsDocGet | cJSON-master/cJSON_Utils.c:301-346 | Resolving a rendered pointer is evaluation as in section 4 of RFC 6901, on every path whose array tokens the code reads as the RFC does |
| JsonPointerLaws.EncodeNormInjective | cJSON-master/cJSON_Utils.c:173-195 | Encoded names agree exactly when the names do |
| JsonPointer.GetItemFromPointer | cJSON-master/cJSON_Utils.c:301-346 | The loop over the tokens finds the node the function locates |
| JsonPointer.ComparePointers | cJSON-master/cJSON_Utils.c:120-154 | True exactly when the token in front is the encoding of the name, in the comparison in use |
| JsonPointer.SegmentMatchesIffEncodes | cJSON-master/cJSON_Utils.c:120-154 | The walk over name and pointer in step accepts exactly the encodings |
| JsonPointer.EncodeStringAsPointer | cJSON-master/cJSON_Utils.c:173-195 | Section 3 of RFC 6901: ~ becomes ~0 and / becomes ~1 |
| JsonPointer.PointerEncodedLength | cJSON-master/cJSON_Utils.c:157-170 | What is reserved is exactly what the encoder writes |
| JsonPointer.DecodeArrayIndexFromPointer | cJSON-master/cJSON_Utils.c:274-298 | The index token up to the next slash, with the wrap-around of size_t |
| JsonPointer.IndexTokenIsRfc | cJSON-master/cJSON_Utils.c:274-298 | The code reads an index token as section 4 of RFC 6901 does exactly on the sane tokens |
| PointerDecode.DecodePointerInPlace | cJSON-master/cJSON_Utils.c:359-390 | Decoding in the buffer writes the decoded text over the front, never longer, and leaves the rest alone |
| PointerDecode.DecodeUndoesEncodeIff | cJSON-master/cJSON_Utils.c:359-390 | Decoding in place undoes the encoder exactly on the restorable names |
| DecodedNames.DecodedHeavier | cJSON-master/cJSON_Utils.c:359-390 | A name that decode_pointer_inplace does not restore comes out heavier, ~ and 0 weighing more than other characters, so no name is its own decoding by way of others |
| JsonCompare.JsonEqualIffSameMeaning | cJSON-master/cJSON_Utils.c:604-690 | compare_json (sort both, walk in step) decides equality up to member order, for all trees with distinct sibling names |
| JsonCompare.CompareJson | cJSON-master/cJSON_Utils.c:604-690 | The recursive comparison: its answer, and the two trees as it leaves them, with every object sorted that it came to before the first difference |
| JsonCompare.LeftMeans | cJSON-master/cJSON_Utils.c:655-682 | A tree means the same after it was compared, in either mode, with any other |
| JsonCompare.CJsonCompare | cJSON-master/cJSON.c:2977-3100 | cJSON_Compare (look every member up in both directions) gives the same answer, but for Invalid items |
| JsonCompare.InvalidShows | cJSON-master/cJSON.c:2977-3019 | Trees that mean the same have Invalid items both or neither, so the two comparisons differ on such trees only |
| JsonCompare.SortedFields | cJSON-master/cJSON_Utils.c:655-682 | Sorted member lists mean the same exactly when they agree position by position |
| CStrings.CompareStrings | cJSON-master/cJSON_Utils.c:83-109 | Zero and sign of the two string comparisons |
| CStrings.LessAt | cJSON-master/cJSON_Utils.c:73-105 | The first difference decides between two strings, as in strcmp |
| CStrings.LowerLetters | cJSON-master/cJSON_Utils.c:99-109 | The 26 capital letters have their small ones, everything else stays |
| JsonMergePatch.MergeTreeRefines | cJSON-master/cJSON_Utils.c:1321-1378 | merge_patch is the MergePatch function of section 2 of RFC 7396, for every target and patch with distinct sibling names |
| JsonMergePatch.MergePatch | cJSON-master/cJSON_Utils.c:1321-1378 | The recursive merge |
| JsonMergePatch.GenerateMergePatch | cJSON-master/cJSON_Utils.c:1390-1470 | The walk by strcmp over both sorted objects; nested patches are generated without regard to case, from values that comparing has sorted |
| JsonMergeRoundTrip.GenerateThenMerge | cJSON-master/cJSON_Utils.c:1390-1470 | For all trees with distinct sibling names, in both modes: merging the generated patch into anything that means the first gives the second exactly when, along the walk by strcmp, no member is added before one of its name is removed, what is added holds no nulls, values that compare_json calls equal are, and the same holds of the pairs below |
| JsonMergeNames.OrderedExpresses | cJSON-master/cJSON_Utils.c:1406-1461 | Where strcmp orders the names of paired objects as the sort does, that is the case exactly when the difference needs no null member; the patch is that difference, nothing more, and none is generated exactly for objects that mean the same |
| JsonMergeNames.GenerateThenMergeOrdered | cJSON-master/cJSON_Utils.c:1390-1470 | So with such names, generating and merging gives the target exactly when the difference can be expressed, as it can if the target has no null member |
| JsonMergeNames.MixedCaseGoesWrong | cJSON-master/cJSON_Utils.c:1415-1461 | From {"a":1} to {"A":1}, equal without regard to case, a patch is generated that loses the member |
| JsonMergeNames.MixedCaseMayArrive | cJSON-master/cJSON_Utils.c:1415-1461 | From {"A":1} to {"a":1} the patch arrives: such names need not do harm |
| JsonMergeNames.NestedCaseGoesWrong | cJSON-master/cJSON_Utils.c:1452-1455 | In case-sensitive mode too: from {"x":{"y":{"a":1}}} to {"x":{"y":{"A":1}}} nothing is generated |
| Rfc7396.MergeDifference | cJSON-master/cJSON_Utils.c:1390-1470 | Among meanings: merging the difference gives the target exactly when no differing part of the target has a null member |
| Rfc7396.NullFreeExpressible | cJSON-master/cJSON_Utils.c:1390-1470 | A target without null members is expressible from everything |
| ListSort.SortList | cJSON-master/cJSON_Utils.c:484-593 | Merge sort by relinking: the result is the same items, as the functional merge sort orders them, chained both ways, NULL at the end |
| MergeSort.SortPermutes | cJSON-master/cJSON_Utils.c:484-593 | Every item is there exactly as often as before |
| MergeSort.SortOrders | cJSON-master/cJSON_Utils.c:484-593 | The result is in non-decreasing name order, from any list |
| MergeSort.SortReversesTies | cJSON-master/cJSON_Utils.c:484-593 | The sort is not stable: items of the same name come out in the opposite order |
| MergeSort.KeepsEndsByName | cJSON-master/cJSON_Utils.c:484-593 | Sorting leaves first and last member in place exactly when the first name comes first and the last comes last, for distinct names |
| ListSort.ScanSorted | cJSON-master/cJSON_Utils.c:498-507 | The early exit is taken exactly for lists that ascend strictly |
| ListSort.FindMiddle | cJSON-master/cJSON_Utils.c:509-521 | The two-pointer walk stops behind the first half |
| ListSort.Split | cJSON-master/cJSON_Utils.c:522-527 | Cutting at the middle leaves two chains |
| ListSort.MergeLists | cJSON-master/cJSON_Utils.c:534-592 | Merging two chains in place is the functional merge |
| ItemLists.SortObject | cJSON-master/cJSON_Utils.c:595-602 | Sorting an object keeps its members, in the order of the functional merge sort; the first prev then names the old last item or nothing |
| ItemLists.SortThenAdd | cJSON-master/cJSON_Utils.c:595-602 | What hangs below an object after sorting and then adding: the item goes behind the old last one, cutting off what sorting put behind that, or is dropped when the first item changed |
| ItemLists.ArrivesIff | cJSON-master/cJSON_Utils.c:595-602 | It arrives and nothing is lost exactly when sorting leaves the first entry first and the last entry last |
| ItemLists.AddedIsLost | cJSON-master/cJSON_Utils.c:595-602 | Two objects, one that loses the new member and one that loses an old one |
| ItemLists.AddItemToArray | cJSON-master/cJSON.c:1952-1983 | Appending through the first prev, also when that prev is stale or missing |
| ItemLists.Append | cJSON-master/cJSON.c:1952-1983 | On a well-kept list the item becomes the last one |
| ItemLists.GetArrayItem | cJSON-master/cJSON.c:1847-1863 | The item at an index, or none |
| ItemLists.GetObjectItem | cJSON-master/cJSON.c:1876-1905 | The first item with the name |
| ItemLists.InsertItemInArray | cJSON-master/cJSON.c:2259-2286 | Insertion in front of an index; behind the end it appends; a negative index is refused |
| ItemLists.InsertItemInArrayStrict | cJSON-master/cJSON_Utils.c:693-728 | Insertion that refuses an index behind the end |
| ItemLists.DetachItemViaPointer | cJSON-master/cJSON.c:2183-2217 | The item leaves and is unlinked, the first prev is handed on as it was, stale or not, and a well-kept list stays one |
| ItemLists.DetachItemFromArray | cJSON-master/cJSON.c:2219-2227 | The same by index |
| ItemLists.ReplaceItemViaPointer | cJSON-master/cJSON.c:2288-2335 | The replacement takes the place of the item, also at the ends of the list |
| ItemLists.ReplaceItemInArray | cJSON-master/cJSON.c:2337-2344 | The same by index |
| ItemRuns.Run | cJSON-master/cJSON.c:1952-2344 | Any run of add, insert, detach and replace is the run of sequence operations, and the list is well kept throughout |
| ItemCopies.Duplicate | cJSON-master/cJSON.c:2697-2778 | From a tree that is walked through child and next alone, a copy of fresh items with the same names, types and values, none of them a reference, in which every list is well kept |
| ItemCopies.WellKeptIsKept | cJSON-master/cJSON.c:2764-2767 | Such a copy meets the condition of the list operations, at every level |
| JsonPrint.PrintBuffer.Ensure | cJSON-master/cJSON.c:439-522 | Room for the bytes and one to spare, or failure exactly past INT_MAX or the end of a fixed buffer; only the text before the offset survives a move |
| JsonPrint.PrintBuffer.UpdateOffset | cJSON-master/cJSON.c:525-535 | The offset moves to the NUL |
| JsonPrint.PrintBuffer.PrintStringPtr | cJSON-master/cJSON.c:898-1017 | The quoted and escaped string is written inside ensured space |
| JsonPrint.PrintBuffer.PrintNumber | cJSON-master/cJSON.c:545-608 | The numeral of an integer |
| JsonPrint.PrintBuffer.PrintValue | cJSON-master/cJSON.c:1363-1434 | Succeeds exactly when there is no Invalid item and the text fits, and then leaves exactly the pure rendering and a NUL behind what was there |
| JsonPrint.PrintBuffer.PrintArray | cJSON-master/cJSON.c:1535-1594 | The same for arrays |
| JsonPrint.PrintBuffer.PrintObject | cJSON-master/cJSON.c:1710-1821 | The same for objects, with tabs and line breaks |
| JsonPrint.Print | cJSON-master/cJSON.c:1183-1286 | From any first size, however often the buffer grows: the rendering, or nothing past INT_MAX |
| JsonPrint.PrintPreallocated | cJSON-master/cJSON.c:1288-1305 | Into a fixed buffer: succeeds exactly when text, NUL and one more byte fit |
| JsonText.RenderClean | cJSON-master/cJSON.c:1363-1434 | The rendering of a printable tree has no NUL |
| JsonLayout.PrintLayout | cJSON-master/cJSON.c:1363-1821 | The formatted text is what a reference without trees makes of the unformatted one: one tab for every open bracket behind a line break, one less before a closing brace, line breaks behind an opening brace, behind a comma in an object and before the brace of an object that is not empty, a tab behind a colon and a blank behind a comma in an array; the unformatted text has no blank outside strings, and is the formatted one without them |
| JsonLayout.IndentedSqueezed | cJSON-master/cJSON.c:1363-1821 | Laying any text out adds nothing but blanks outside its strings |
| JsonRoundTrip.ParseUndoesPrint | cJSON-master/cJSON.c:1091-1821 | Parsing printed text, formatted or not, gives the same tree, members in order, exactly up to CJSON_NESTING_LIMIT; deeper trees are refused |
| JsonRoundTrip.StringBack | cJSON-master/cJSON.c:769-1017 | parse_string undoes print_string_ptr on every string without NUL, whatever follows |
| JsonSpelling.EverySpelling | cJSON-master/cJSON.c:769-895 | Any spelling of a string after section 7 of RFC 8259 (plain characters, any of the eight two-character escapes, code units in hexadecimal digits of either case) parses to what it denotes, up to the first NUL in that; it is refused exactly when another letter stands behind a backslash or a surrogate lacks its other half |
| JsonSpelling.EveryBody | cJSON-master/cJSON.c:777-805 | What stands up to the closing quote is a spelling, or has a \u without four hexadecimal digits behind a spelling |
| JsonSpelling.BadUnitEnds | cJSON-master/cJSON.c:611-645 | Such a \u reads as a NUL, so the value ends there, or the string is refused |
| JsonSpelling.EscapeSpelled | cJSON-master/cJSON.c:898-1017 | A printed string spells the string: a quote, a backslash and the five control characters with a letter of their own behind a backslash, the other control characters by four lower-case digits, everything else as it stands |
| JsonGrammar.EveryTextParses | cJSON-master/cJSON.c:1075-1707 | Every JSON text (a grammar after RFC 8259: any white space, any spelling of strings, numbers that strtod reads, a byte order mark or none) parses to the tree it stands for, exactly up to 1000 levels; deeper texts are refused |
| JsonAccepts.EveryTextAccepted | cJSON-master/cJSON.c:1075-1707 | And nothing else is accepted: a text that parses with only white space behind the value, and has four hexadecimal digits behind every \u, is derived by the grammar, and stands for the tree that was read |
| JsonRoundTrip.NumeralDenotes | cJSON-master/cJSON.c:545-608 | A printed integer is the decimal numeral of its value, without a leading zero |
| JsonRoundTrip.IntegersAreRead | cJSON-master/cJSON.c:305-379 | There is a strtod as the theorems ask for |
| JsonParser.Parser.Parse | cJSON-master/cJSON.c:1075-1169 | The entry point: byte order mark, one value, and blanks only behind it if that is required |
| JsonParser.Parser.ParseValue | cJSON-master/cJSON.c:1308-1360 | The recursive descent returns what the pure parser gives, at the offset it gives, and terminates because the offset advances |
| JsonParser.Parser.ParseArray | cJSON-master/cJSON.c:1437-1532 | Arrays, with the nesting limit |
| JsonParser.Parser.ParseObject | cJSON-master/cJSON.c:1597-1707 | Objects, with the nesting limit |
| JsonParser.Parser.ParseString | cJSON-master/cJSON.c:769-895 | Both scans of a string |
| JsonParser.Parser.FindClosingQuote | cJSON-master/cJSON.c:777-805 | The first scan finds the closing quote and counts what the second one will need |
| JsonParser.Parser.Unescape | cJSON-master/cJSON.c:807-880 | The second scan never writes more than the first one counted, malformed escapes included, and gives the decoded string |
| JsonParser.Parser.ParseNumber | cJSON-master/cJSON.c:305-379 | The number token is cut out and the offset moves by what strtod consumed |
| JsonParser.Parser.SkipWhitespace | cJSON-master/cJSON.c:1034-1057 | Blanks and control characters are skipped, but not past the last byte |
| Utf16.LiteralToUtf8 | cJSON-master/cJSON.c:648-766 | The escape sequence or surrogate pair is written as bytes, backwards, or refused |
| Utf16.ParseHex4 | cJSON-master/cJSON.c:611-645 | Four hexadecimal digits, or 0 |
| Utf16.Utf8Decodes | cJSON-master/cJSON.c:700-755 | The bytes are the UTF-8 of the code point |
| JsonSpelling.EncodedIs | cJSON-master/cJSON.c:700-755 | The bytes of a code point are the one to four bytes of section 3 of RFC 3629 |
| Utf16.LiteralOfWritten | cJSON-master/cJSON.c:648-766 | The literal of every scalar value is read back as its UTF-8 |
| Minify.MinifyInPlace | cJSON-master/cJSON.c:2829-2875 | The in-place pass never writes ahead of what it reads and leaves the minified text and a NUL |
| Minify.MinifyIdempotent | cJSON-master/cJSON.c:2829-2875 | Minifying twice is minifying once |
| Minify.MinifiedShorter | cJSON-master/cJSON.c:2829-2875 | The result is never longer |
| Minify.MinifyString | cJSON-master/cJSON.c:2807-2827 | A string is copied up to where the code takes it to end |
| Minify.SkipOnelineComment | cJSON-master/cJSON.c:2780-2791 | To the end of the line or of the text |
| Minify.SkipMultilineComment | cJSON-master/cJSON.c:2793-2805 | To the end of the comment or of the text |
| MinifyLexed.MinifiedText | cJSON-master/cJSON.c:2829-2875 | What cJSON_Minify leaves is what a lexer keeps that reads character by character and knows whether it is in plain text, a string or a comment |
| MinifyLexed.LineCommentVanishes | cJSON-master/cJSON.c:2780-2791 | Behind a text that ends outside strings and comments, a comment up to its line break vanishes |
| MinifyLexed.BlockCommentVanishes | cJSON-master/cJSON.c:2793-2805 | So does a block comment up to the first end mark in it |
| MinifyLexed.OpenCommentDropsTheRest | cJSON-master/cJSON.c:2780-2805 | A comment that never ends takes the rest of the text with it |
| MinifyLexed.StringStays | cJSON-master/cJSON.c:2807-2827 | A string stays, with all that is in it |
| MinifyLexed.WhiteVanishes | cJSON-master/cJSON.c:2837-2847 | A blank, a tab, a carriage return or a line break outside strings and comments vanishes |
| MinifyLexed.CharacterStays | cJSON-master/cJSON.c:2866-2871 | Any other character but a slash or a quote stays |
| MinifyParse.MinifiedParsesAlike | cJSON-master/cJSON.c:2829-2875 | A text that parses, and none of whose strings ends in an escaped backslash, parses to the same tree when minified |
| MinifyParse.EndsAgree | cJSON-master/cJSON.c:2812-2823 | minify_string and parse_string agree where a string ends exactly when no backslash stands in front of its closing quote, or nothing follows the string |
| MinifyParse.PairsGoWrong | cJSON-master/cJSON.c:2812-2823 | An escaped backslash before a closing quote makes the pass run on into the next string and change it |
| MinifyParse.PairMayDoNoHarm | cJSON-master/cJSON.c:2812-2823 | Nothing is changed in ["\\"], whose string ends in one: nothing behind it can be taken out |
| HttpParser.Parser.Execute | mana-svr/3rd/http_parser/http_parser.c:634-2083 | No assert fires (nread at a chunk start, flags and length in a body, at most one mark left, unreachable header states); fields and callbacks are those of the byte-by-byte reference; a call stops early only with the error of the reference at the byte it says, or past the header size limit, or at a byte of an ordinary header value that is not allowed there; input that the limit leaves room for goes through |
| HttpReference.NextLegal | mana-svr/3rd/http_parser/http_parser.c:702-2052 | Whatever byte comes, the parser is left in a legal state (header state fits the state, lengths below the sentinel, index in range) or with an error |
| HttpReference.FoldJoin | mana-svr/3rd/http_parser/http_parser.c:634-2083 | For the reference, input in two parts is the parts in turn |
| HttpReference.Init | mana-svr/3rd/http_parser/http_parser.c:2145-2153 | The initial fields are legal |
| HttpParser.Parser.ExecuteEof | mana-svr/3rd/http_parser/http_parser.c:651-676 | The empty call at the end of input |
| HttpParser.Parser.Step | mana-svr/3rd/http_parser/http_parser.c:708-2052 | The switch, in the states that take one byte |
| HttpParser.Parser.BodyStep | mana-svr/3rd/http_parser/http_parser.c:1836-1923 | Behind the header every byte, and every run of body bytes, does what the reference does |
| HttpParser.Parser.MatchField | mana-svr/3rd/http_parser/http_parser.c:1298-1408 | Header names are followed letter by letter up to the end of the token |
| HttpParser.Parser.MatchValue | mana-svr/3rd/http_parser/http_parser.c:1506-1690 | Header values: length digits with overflow check, tokens of Connection and Transfer-Encoding, the jump to the end of the line |
| HttpParser.Parser.IdentityRun | mana-svr/3rd/http_parser/http_parser.c:1882-1917 | As many bytes as the length leaves |
| HttpParser.Parser.ChunkRun | mana-svr/3rd/http_parser/http_parser.c:2015-2036 | As many bytes as the chunk leaves |
| HttpParser.Parser.Turn1 | mana-svr/3rd/http_parser/http_parser.c:702-708 | One turn of the main loop, with its count |
| HttpParser.Parser.Leftovers | mana-svr/3rd/http_parser/http_parser.c:2061-2083 | What is marked at the end goes to one callback |
| HttpParser.Parser.CallbackData | mana-svr/3rd/http_parser/http_parser.c:101-133 | The callback gets the bytes from the mark on |
| HttpChunked.DeliverChunked | mana-svr/3rd/http_parser/http_parser.c:1934-2052 | However a well-formed chunked body (section 3.6.1 of RFC 2616: chunks, last chunk, trailer, folded lines included) is cut into non-empty calls: on_body gets the payload, the header callbacks get the trailer, on_message_complete is called once, as the last callback; when the chunk heads and the trailer are within the header size limit, it is refused exactly for a Content-Length in the trailer that is a second one, folded behind its start, no number or too large |
| HttpChunked.Feed | mana-svr/3rd/http_parser/http_parser.c:634-2083 | Any cut of any input: as long as the run goes on, fields and callbacks are those of the whole; short input without a byte that is not allowed in a header value is taken exactly when the reference takes the whole |
| HttpChunked.BodyGoes | mana-svr/3rd/http_parser/http_parser.c:1934-2052 | The reference accepts the body exactly when it does not refuse the trailer, and delivers payload, trailer and one completion |
| HttpTrailers.TrailerGoes | mana-svr/3rd/http_parser/http_parser.c:1298-1790 | A trailer of well-formed fields, whatever their names and values, on one line or folded over several, is accepted unless a Content-Length in it is refused |
| HttpTrailers.LineGoes | mana-svr/3rd/http_parser/http_parser.c:1298-1770 | One field with its folds goes through all header states back to the start of a line, or ends in the error |
| HttpChunked.ChunkGoes | mana-svr/3rd/http_parser/http_parser.c:1934-2052 | One chunk |
| HttpChunked.BodyIsAffordable | mana-svr/3rd/http_parser/http_parser.c:154-163 | A body is within the header size limit, in every cut, if each of its chunk heads is and its trailer is with header bytes counted twice |
| HttpMessages.MessageGoes | mana-svr/3rd/http_parser/http_parser.c:702-2052 | A whole message, from its first line and its header lines: one without a body is complete with its header, Content-Length n takes exactly n bytes, the chunked coding its chunks, and the message is complete once behind them; the parser then waits for the next message if the connection persists, and takes none if not |
| HttpMessages.EndlessMessageGoes | mana-svr/3rd/http_parser/http_parser.c:1868-1923 | A response with neither a length nor the chunked coding takes everything that follows |
| HttpSwitches.SwitchGoes | mana-svr/3rd/http_parser/http_parser.c:1797-1851 | Behind CONNECT, or an upgrade that both headers agree on, the message is complete with its header, or with the body a length announces; there the parser stops, and whatever follows is left alone |
| HttpMessages.AnotherIff | mana-svr/3rd/http_parser/http_parser.c:2118-2134 | Another message is accepted behind a message exactly when HTTP/1.1 is not told to close, or HTTP/1.0 is told to keep alive |
| HttpMessages.ExtentIsStandard | mana-svr/3rd/http_parser/http_parser.c:2095-2115 | Bodies end where section 4.4 of RFC 2616 says, except that a 1xx, 204 or 304 response with a length or the chunked coding has a body, and that a length together with the chunked coding is refused |
| HttpMessages.NotModifiedTakesBody | mana-svr/3rd/http_parser/http_parser.c:1858-1866 | A 304 with Content-Length: 5 takes the next five bytes for its body |
| HttpMessages.HeadRefused | mana-svr/3rd/http_parser/http_parser.c:1775-1795 | A second length, one that is too large, or a length together with the chunked coding is refused |
| HttpMessages.MessagesGo | mana-svr/3rd/http_parser/http_parser.c:702-2052 | Messages one behind the other are told one behind the other, as long as the connection persists |
| HttpMessages.DeliverMessages | mana-svr/3rd/http_parser/http_parser.c:634-2083 | However such messages are cut into calls: nothing but the header size limit stops the parser, every data callback gets its parts of the messages in turn, and on_message_complete is called once for each; messages of less than half the limit always go through |
| HttpMessages.DeliverToTheEnd | mana-svr/3rd/http_parser/http_parser.c:651-676 | A response without a length, in any cut, and then the empty call: everything that came is its body, and it is complete |
| HttpHeads.HeadersGo | mana-svr/3rd/http_parser/http_parser.c:1248-1790 | Header lines leave exactly the length, the chunked coding and the connection options that they name, and are refused for a second length or one that is too large |
| HttpHeads.WordsGo | mana-svr/3rd/http_parser/http_parser.c:1603-1690 | The options of a connection, with spaces around them, are heard as they are named, but that the beginning of an option right in front of a comma hides the next one |
| HttpHeads.HeardIsSaid | mana-svr/3rd/http_parser/http_parser.c:1603-1690 | Without such a beginning everything is heard |
| HttpMessages.CutHidesClose | mana-svr/3rd/http_parser/http_parser.c:1633-1640 | "Connection: c,close" is not heard to close |
| HttpHeaders.NameGoes | mana-svr/3rd/http_parser/http_parser.c:1248-1408 | Of all header names, in any letter case, exactly five are known: Connection, Proxy-Connection, Content-Length, Transfer-Encoding and Upgrade |
| HttpStartLines.MethodGoes | mana-svr/3rd/http_parser/http_parser.c:954-1051 | Every one of the 33 method names is read as itself |
| HttpTargets.TargetIff | mana-svr/3rd/http_parser/http_parser.c:486-632 | In front of a blank exactly these targets are accepted: a path or an asterisk with query and fragment, a scheme with "://" and an authority, and behind CONNECT an authority; no other character, and no two at signs in a row |
| HttpTargets.TargetGoes | mana-svr/3rd/http_parser/http_parser.c:1053-1122 | A target is handed on as it stands |
| HttpStartLines.RequestGoes | mana-svr/3rd/http_parser/http_parser.c:954-1246 | A request line with any method and target: the target is handed on, method and version are kept |
| HttpStartLines.ResponseGoes | mana-svr/3rd/http_parser/http_parser.c:758-952 | A status line: the reason is handed on, version and code are kept |
| HttpBudget.TallyJoin | mana-svr/3rd/http_parser/http_parser.c:154-163 | The worst count over all cuts, a header byte counting twice, is that of the parts in turn |
| HttpBudget.ShortFits | mana-svr/3rd/http_parser/http_parser.c:154-163 | Input of less than half the limit is within it |
| Sha1Transform.Transform | mana-svr/3rd/crypt/sha1.c:110-159 | The unrolled rounds with rotating names and the 16-word circular schedule compute the compression of section 6.1.2 of FIPS 180-4 |
| Sha1Transform.ScheduleNext | mana-svr/3rd/crypt/sha1.c:98-99 | The word put in place is the word of the 80-word schedule, and the other fifteen stay what the next rounds need |
| Sha1Transform.NextWord | mana-svr/3rd/crypt/sha1.c:92-99 | Loading and turning the first sixteen words, then the recurrence, in place |
| Sha1Transform.TurnedLoads | mana-svr/3rd/crypt/sha1.c:95-96 | Two rotations and masks turn a little-endian word into the big-endian load |
| Sha1Transform.MixIsF | mana-svr/3rd/crypt/sha1.c:102-106 | The shortened round functions are Ch, Parity and Maj |
| Sha1Transform.RoundStep | mana-svr/3rd/crypt/sha1.c:102-106 | One operation on variables whose names go round is one round of the standard |
| Sha1Stream.Context.Update | mana-svr/3rd/crypt/sha1.c:176-201 | After the call the context stands for the message so far followed by the data, whatever the split |
| Sha1Stream.CountedRightIff | mana-svr/3rd/crypt/sha1.c:185-186 | The two halves count the bits right exactly when the call is shorter than 2^29 bytes or the low half overflows |
| Sha1Digest.Final | mana-svr/3rd/crypt/sha1.c:205-230 | The digest of the message padded with the bit count in the context; the context is wiped |
| Sha1Digest.PaddingStops | mana-svr/3rd/crypt/sha1.c:214-217 | The padding loop stops after the number of zero bytes that section 5.1.1 asks for |
| Sha1Digest.CountBytes | mana-svr/3rd/crypt/sha1.c:210-213 | The eight length bytes are the bit count, most significant byte first |
| Sha1Digest.DigestBytes | mana-svr/3rd/crypt/sha1.c:219-222 | The twenty bytes of the result |
| Sha1Digest.HashInPieces | mana-svr/3rd/crypt/sha1.c:163-230 | Any cut of a message into calls of less than 2^29 bytes gives its SHA-1 value |
| Sha1Digest.ContextDetermined | mana-svr/3rd/crypt/sha1.c:176-201 | Two contexts that have taken in the same message are equal but for stale buffer bytes |
| Sha1Digest.CryptSha1 | mana-svr/3rd/crypt/sha1.c:233-243 | The SHA-1 value below 2^29 bytes; from there on the padded length is 2^32 too large |
| Fips180.PaddingFills | mana-svr/3rd/crypt/sha1.c:214-218 | The padding fills the last block and is the shortest that can |
| Fips180.ConstantsAreRoots | mana-svr/3rd/crypt/sha1.c:102-106 | The four round constants are the integer parts of 2^30 times the square roots of 2, 3, 5 and 10 |
| Fips180.InitialBytes | mana-svr/3rd/crypt/sha1.c:163-171 | The initial value, byte by byte |
| Crc16.LookupIsAbsorb | libcrc-master/src/crc16.c:107-113 | One shift by a byte and one lookup are eight steps of the shift register |
| Crc16.TableEntry | libcrc-master/src/crc16.c:131-145 | The generator, which shifts byte and register side by side, gives eight steps from the byte |
| Crc16.Table.Run | libcrc-master/src/crc16.c:52-98 | The lazily filled table gives the bit-serial fold; a null input gives the start value |
| Crc16.Table.Crc16 | libcrc-master/src/crc16.c:52-70 | crc_16: the fold from 0 |
| Crc16.Table.Modbus | libcrc-master/src/crc16.c:80-98 | crc_modbus: the fold from 0xFFFF, which is also the value of the empty message and of a null input |
| Crc16.PresetIsComplement | libcrc-master/src/crc16.c:80-98 | crc_modbus is crc_16 of the message with its first two bytes complemented |
| Crc16.Table.Update | libcrc-master/src/crc16.c:107-113 | update_crc_16 is one step of the fold |
| Crc16.FoldJoin | libcrc-master/src/crc16.c:107-113 | One-shot values are folded updates, in any split |
| Crc16.CrcIsRemainder | libcrc-master/src/crc16.c:52-70 | crc_16 is the remainder of schoolbook long division of the message and sixteen zero bits by the polynomial |
| Crc16.DivisionIsFeeding | libcrc-master/src/crc16.c:52-98 | Dividing bits behind any preset remainder is feeding them into the register that the preset steps to |
| Crc16.ResidueZeroIff | libcrc-master/src/crc16.c:80-98 | Two appended bytes bring the value to 0 exactly when they are the value, low byte first |
| Crc16.AdjacentBytesDetected | libcrc-master/src/crc16.c:80-98 | Messages of equal length that differ only within two adjacent bytes have different values |
| Crc64.LookupIsAbsorb | libcrc-master/src/crc64.c:103-107 | The left-shifting lookup is eight steps |
| Crc64.InitTable | libcrc-master/precalc/crc64_table.c:48-71 | Every table entry is eight steps from the byte at the top |
| Crc64.Update | libcrc-master/src/crc64.c:103-107 | update_crc_64 is one step of the fold |
| Crc64.Ecma | libcrc-master/src/crc64.c:52-68 | crc_64_ecma is the bit-serial fold |
| Crc64.We | libcrc-master/src/crc64.c:78-94 | crc_64_we, complemented at the end |
| Crc64.ResidueZeroIff | libcrc-master/src/crc64.c:52-68 | Eight appended bytes bring the register to 0 exactly when they are its value, top byte first |
| Crc64.AdjacentBytesDetected | libcrc-master/src/crc64.c:52-94 | Messages that differ only within eight adjacent bytes have different values |
| TcpSession.Manager.constructor | mana-svr/tcp/tcp_session.c:55-67 | The slab is chained into the free list, nobody is online |
| TcpSession.Manager.Take | mana-svr/tcp/tcp_session.c:30-42 | A session comes from the free list, or is new; the books stay right |
| TcpSession.Manager.CacheFree | mana-svr/tcp/tcp_session.c:45-53 | A session of the slab goes to the front of the free list, any other back to the system, never to be seen again |
| TcpSession.Manager.Save | mana-svr/tcp/tcp_session.c:74-89 | The new session is the first one online, with its address cut to 31 characters |
| TcpSession.Manager.Get | mana-svr/tcp/tcp_session.c:109-122 | The newest session with the socket that is not marked |
| TcpSession.Manager.Close | mana-svr/tcp/tcp_session.c:124-129 | The session is marked and nothing else moves |
| TcpSession.Manager.Clear | mana-svr/tcp/tcp_session.c:131-151 | The online list is filtered to the unmarked sessions in order, every marked socket is closed once, sessions go back where they came from, and no mark is left |
| TcpSession.SlabConserved | mana-svr/tcp/tcp_session.c:55-67 | Free sessions and online sessions of the slab always add up to 6000 |
| DlpHandshake.ExposureAfterItsPicture | 00.dlpUsr1/marlinHost.cpp:330-349 | In every interleaving the k-th exposure starts after exactly k finished calls of show_bmp at the wait points |
| DlpHandshake.PictureAfterItsRelease | 00.dlpUsr1/SLC_Read.cpp:1105-1127 | The next such call comes only after the k-th M107 was acknowledged, and never during an exposure |
| DlpHandshake.RunIsGood | 00.dlpUsr1/marlinHost.cpp:317-349 | The invariant of all threads in every state of every run |
| DlpHandshake.NeverStuck | 00.dlpUsr1/marlinHost.cpp:323-326 | While commands are queued some thread can move: fun2 never waits for a picture nobody will show |
| DlpHandshake.RunsEnd | 00.dlpUsr1/marlinHost.cpp:461-493 | However the threads interleave, a print takes a bounded number of moves |
| DlpHandshake.AllExposed | 00.dlpUsr1/marlinHost.cpp:461-493 | When the queue has run empty every M106 was exposed |
| DlpHandshake.BaseHeldBackIff | 00.dlpUsr1/SLC_Read.cpp:813-845 | No run lets bmp_255 draw a base layer during an exposure exactly when there is at most one base layer |
| DlpHandshake.DrawsIntoExposure | 00.dlpUsr1/SLC_Read.cpp:813-845 | A run that does, for every queue with an exposure and every number of base layers from two on |
| GmFile.PrintExposesEveryLayer | 00.dlpUsr1/SLC_Read.cpp:430-552 | For the file GMCreat writes and GM_Read queues, every complete run exposes every layer and the first picture, each after its own show_bmp |
| GmFile.PrintHoldsBaseBackIff | 00.dlpUsr1/SLC_Read.cpp:430-552 | The same for the queued file of any print |
| GmFile.FileCycles | 00.dlpUsr1/SLC_Read.cpp:430-552 | The queued file keeps to the cycle M114, M106, M107, with one exposure more than layers |
| GmFile.ExposureHeights | 00.dlpUsr1/SLC_Read.cpp:495-540 | The last move in front of the k-th exposure goes k levels from the working level, and the one before it is the lift |
| GmFile.GMCreat | 00.dlpUsr1/SLC_Read.cpp:430-552 | The file is every command framed under its own number, 1, 2, 3 and so on |
| GmFile.Emit | 00.dlpUsr1/SLC_Read.cpp:451-458 | One command is cut at its line end, numbered, summed and written |
| GmFile.FixedLines | 00.dlpUsr1/SLC_Read.cpp:446-449 | The two lines with written-out checksums carry the right ones |
| GmFile.SelfImposedOne | 00.dlpUsr1/SLC_Read.cpp:394-427 | The decimal string of a number becomes that of its successor, carries included, in place |
| GmFile.XorPersonal | 00.dlpUsr1/SLC_Read.cpp:380-391 | The checksum is the exclusive or of the bytes |
| GmFile.GmRead | 00.dlpUsr1/marlinHost.cpp:296-314 | The last line is queued a second time, because feof turns true only after a failed read |
| GmFile.FramedMeans | 00.dlpUsr1/marlinHost.cpp:359-383 | compareSelf takes a framed command for what it is, whatever its number and checksum |
| CommandQueue.Queue.AddGood | 00.dlpUsr1/marlinHost.cpp:97-119 | The command becomes the last entry |
| CommandQueue.Queue.DelHeadGoods | 00.dlpUsr1/marlinHost.cpp:173-208 | The first entry leaves, the others stay in order |
| CommandQueue.Queue.ViewHead | 00.dlpUsr1/marlinHost.cpp:122-138 | The status of the first entry, or 0 |
| CommandQueue.Queue.SendHead | 00.dlpUsr1/marlinHost.cpp:223-292 | An empty queue gives -1, a comment is dropped, anything else is sent and marked; the limit of thirty retries is never reached |

## Left out

- Floating point in JSON (compare_double, the two formats of print_number, valueint saturation), locale decimal points.
- Allocation failure: every allocation succeeds, so status codes 6 and 8 of apply_patch do not occur.
- cJSON_Raw, reference and constant-string flags, the AddXToObject and Create wrappers, error positions, return_parse_end.
- cJSON_ParseWithLength on a buffer without a NUL at its end.
- JsonPrint.Print: cJSON_PrintBuffered with a first size of 0 is left out, it makes the first allocation empty.
- JsonPatchRoundTrip.GenerateThenApplyIff: create_patches sorts the objects it visits; the two documents it leaves are not described, so the patches are applied to a copy.
- JsonPatchDocument.Document.ApplyPatches: a "test" also sorts objects in the value of its own patch, which is left as it was; where the code would link an item behind one that is gone, nothing is stated.
- JsonMergeRoundTrip.GenerateThenMerge: merge_patch adds to lists that are well kept; the two arguments of generate_merge_patch, which it sorts, are not taken further.
- JsonMergeNames.OrderedExpresses: the order of names is asked for in every two objects of one path, which is more than the walk needs; JsonMergeRoundTrip.GenerateThenMerge has what it needs.
- JsonPatchRefines.ApplyPatchRefinesRfc6902: paths whose array tokens the code reads otherwise than RFC 6901 (JsonPointer.IndexTokenIsRfc says which), moves into or of the whole document, and a path without a leading slash are covered by the model but not by this law; a "from" that is not a string, which the code dereferences as a null pointer, is status 5 in the model.
- JsonCompare.CJsonCompare: its shortcut for an item compared with itself, which is equal even with an Invalid item below it.
- JsonPatchNotes.ArrivedRun: one way for the end of the run alone, since a later patch can replace what was lost; exact for all its points (JsonPatchNotes.EveryPointIff).
- ItemCopies.Duplicate: name and values are constants of an item, so a copy that shares a constant name with its original is not told from one with its own.
- JsonAccepts.EveryTextAccepted: for require_null_terminated; without it anything may follow the value.
- JsonParser.Parser.Parse: a string with an embedded \u0000 is cut at it, as strlen would see it.
- HttpParser.Parser.Execute: HTTP_PARSER_STRICT is 1, as its header sets it; callbacks return 0 and leave the parser alone; pausing, URL splitting and error strings are left out; nread has no width, so a call of 2^32 bytes or more is not covered; the reference has no count, so where a header ends in HPE_HEADER_OVERFLOW depends on the cut, and so does whether a byte of an ordinary header value that is not allowed there is noticed.
- HttpSwitches.SwitchGoes: an upgrade behind chunks.
- HttpMessages.MessageGoes: HTTP/0.9, versions of more than one digit on a side, a parser that is told neither requests nor responses, folded header lines, tabs and empty elements in lists of options, lines that end in a bare LF; trailers are in HttpChunked.DeliverChunked.
- HttpChunked.Feed: input that turns to another protocol may stop early, and so may input with a byte that is not allowed in a header value.
- HttpChunked.DeliverChunked: trailer lines end in CRLF.
- MinifyParse.MinifiedParsesAlike: one way for whole texts, exact for a single string (MinifyParse.EndsAgree): where minify_string reads on there may be nothing to remove (MinifyParse.PairMayDoNoHarm).
- crc32.c with precalc/crc32_table.c is the scheme of crc16.c at 32 bits, crcccitt.c the scheme of crc64.c at 16 bits; crc8, crcdnp, crckrmit, crcsick and nmea-chk are variants.
- foreach_online_session: its callback is arbitrary code.
- TcpSession.Manager.CacheFree: an address inside the slab is membership in a sequence; the sequence is not an array of structs.
- DlpHandshake.RunIsGood: each step of a thread is atomic, so send_head reading an entry that delHeadGoods frees is not seen; pausing, stopping, Resend recovery and the end of the slice file are left out, delays are steps without length.
- GmFile.ExposureHeights: heights are reals, and their text a parameter.
- GmFile.GMCreat: heights are text parameters without a line end, a comment or a letter.
- SLC parsing, OpenCV and the framebuffer, serial, GPIO, touch screen, CGI, Node and curl code, tcp_ws, base64_encoder.
