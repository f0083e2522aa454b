# A verified model of open62541's core algorithms

open62541 is an OPC UA stack in C. This project models eight of its self-contained cores in Dafny and proves what
they are for: a double printer, a zip tree and the node store built on it, the receive path of a secure channel, a
chunked-body decoder, an XML push parser, a JSON5 tokenizer, calendar conversion and three text codecs.

Code that updates memory step by step is modelled by classes, arrays and loops, each proved equal to a function of the
old state; the laws are then proved about those functions, for every input, every run and every reachable state.

| module | models |
|---|---|
| `ZipHash`, `ZipTree`, `ZipRanks`, `ZipMemory` | ranks, also in plain numbers, the zip tree as a value, and its insert, remove, zip, unzip, find and key iteration as loops over edges in memory |
| `NodeStoreSpec`, `NodeStoreLaws`, `NodeStore` | the node store as a state machine over runs of operations, its laws as a map from ids to nodes, and the store class on the zip tree |
| `Powers`, `PowersTen`, `Grisu`, `GrisuDigits`, `GrisuInterval`, `Dtoa`, `DtoaLayout` | the Grisu2 double printer with its table of 87 cached powers, and the layout of its text |
| `SequenceNumbers`, `ChannelSpec`, `ChannelDelivery`, `ChannelNumbers`, `Channel` | sequence numbers, reassembly of the byte stream into chunks and messages, what is read out of the octets of a frame, and the channel class with its aliased receive buffer |
| `ChunkedSpec`, `ChunkedSizes`, `ChunkedPrefixes`, `Chunked` | the chunked transfer coding (section 7.1 of RFC 9112), bodies with written sizes, what the answers mean, and the resumable in-place decoder |
| `YxmlSpec`, `YxmlTree`, `YxmlData`, `Yxml` | the XML parser's table, what its runs mean, the data that goes with a token, and the class with the flat byte stack and the data buffer |
| `YxmlClient`, `YxmlLines`, `YxmlMarkup`, `YxmlDocument`, `YxmlProlog` | what a client sees, line ends, and that written markup, elements and whole documents are read as written |
| `YxmlScan`, `YxmlNodes`, `YxmlLanguage` | the other direction: what is accepted is a written document |
| `YxmlReferences`, `YxmlErrors` | octet classes and references against literals, and which error is reported |
| `Cj5Spec`, `Cj5Build`, `Cj5Read`, `Cj5Write`, `Cj5Language`, `Cj5Literals`, `Cj5` | JSON5 tokens as the preorder listing of a tree, the reading machine, written documents, the language that is read, its characters and words against literals, and the tokenizer class |
| `CalendarSpec`, `CalendarDates`, `Calendar` | the proleptic Gregorian calendar, known dates, and the conversion in both directions |
| `Base64Spec`, `Base64Alphabet`, `Base64`, `NumeralsSpec`, `NumeralLiterals`, `Numerals` | base64 and its alphabet, and integers as text in both directions with their digits |
| `Ascii`, `Bytes`, `Options`, `Words` | characters as octets given by literals, octets, optional values and the widths of machine integers |

## Main results

1. **Doubles print back.** For every finite non-zero double the printed decimal lies strictly between the midpoints to
   the neighbouring doubles, so every other double is farther from it. The accuracy of each of the 87 cached powers is
   proved, not assumed. When the text is longer than 24 characters, when it has an exponent and when its last digit is
   zero is stated exactly.
2. **The zip tree's shape is a function of its elements.** Any two runs of inserts and removes that leave the same
   elements end in the same tree; unzip and zip undo each other node for node; the memory operations do exactly this.
3. **No node is freed under a handle**, over every run in which no entry has more than 65535 handles; of all copies of
   one version of a node at most one replace ever succeeds. The store is a map: an inserted node is found under its id
   after every run that does not remove or replace it, and no operation touches the nodes that it does not name.
4. **Messages arrive as sent**, once and in order, however the network cuts the bytes, and in any interleaving of
   requests; queue and payload never exceed the limits. Over every run the sequence numbers of the chunks that are taken
   count up from the last one; a chunk whose number does not follow is refused, so that no number is taken twice within
   2^32 chunks.
5. **Chunked decoding does not depend on where the input is cut**, decodes every coded body and accepts nothing else,
   with and without a trailer section. It asks for more exactly if some octets complete the input, and refuses exactly
   if none do.
6. **XML start and end tokens are well nested** with equal names in every run without an error, and a document that is
   accepted to its end is exactly one element. The parser accepts exactly the written documents for which its stack has
   room, and a client sees exactly their elements, attributes, character data and instructions, in order, with the data
   that the parser leaves in its buffer: line ends and the blanks in attribute values are normalised and references are
   replaced by the UTF-8 octets of their characters.
7. **The first pass of the JSON5 tokenizer reads exactly the written documents**, and its token array is the preorder
   listing of the document's value. The second pass, with which the code also takes members without braces such as
   `a:1`, is not modelled.
8. **Seconds and calendar fields convert into each other without loss**, for exactly the years that an int can hold.
9. **Base64 and integer texts read back** as what was written, in the alphabet and the digits that the literals give.

## Findings

Properties that do not hold of the code as one might expect, with the exact condition under which they do:

- The node store counts handles in 16 bits. Whatever the operation, a step frees an entry under outstanding handles
  exactly if it lets the entry go (a remove of its id, a successful replace of it, or the release of a deleted entry)
  and leaves a positive multiple of 65536 handles (`NodeStoreSpec.FreesUnderHandleIff`,
  `NodeStoreSpec.OverflowFreesUnderHandles`).
- Inserting an element that is already in the zip tree cuts off its children; it is harmless exactly if it has none
  (`ZipMemory.ReinsertKeepsIffChildless`).
- The double printer's last digit can be zero, exactly if the double's scaled interval ends in one kind of tie
  (`GrisuInterval.Grisu2`, `GrisuDigits.ZeroIffTie`); it is zero for 5.78735773515625e-277
  (`GrisuInterval.TrailingZero`).
- `deps/dtoa.h` promises at most 24 characters; 27 are needed and enough. The sign and the text take more than 24
  exactly if the decimal exponent `k` is from 0 to 7 and digits, `k` zeros, the final `.0` and the sign exceed 24
  (`Dtoa.EmitLength`), which only happens between about 10^21 and 10^24 (`Dtoa.LongNumbers`); one double takes 26
  characters, or 27 with its sign (`Dtoa.LongOutput`).
- The guard against coding overhead is meant, by its comment, for more than 80 percent of it. It refuses exactly if at
  least 102400 octets are not content and the content and one octet more are at most a quarter of all
  (`ChunkedPrefixes.ReturnsAre`).
- A chunk without content stops the draining of a buffer. Draining is complete exactly if no complete chunk follows
  such a chunk (`ChannelSpec.DrainCompleteIff`, `ChannelDelivery.EmptyChunkDelays`).
- Blanks at the end of a close tag are taken exactly if the element is not the root (`YxmlDocument.CloseTagIff`,
  `YxmlProlog.RootCloseTagWithBlanks`). The root ends with the first blank, so that a document may end there without
  the angle bracket (`YxmlProlog.RootEndsWithBlank`).
- A client sees the value of an attribute as it was written exactly if it holds no tab, no line feed and no reference
  (`YxmlDocument.ValueAsWritten`).
- The end `?>` of an instruction is taken for text exactly if an odd number of question marks stands before it
  (`YxmlMarkup.PiEndIff`).
- References are meant to be limited to the characters of XML 1.1, but all surrogates except the last are let through
  and the code points from 0xE000 to 0xE7FD are refused; elsewhere the limit is right (`YxmlData.RefCharsIff`).
- `deps/base64.h` says that padding may be missing. A text without its padding is read exactly if it needs none, that
  is, if the number of octets is a multiple of three (`Base64Spec.UnpaddedIsReadIff`). A text is what the encoder would
  write for its octets exactly if it is canonical (`Base64Spec.EncodeDecoded`).
- The overflow test of the number reader is not exact: 30000000000000000000 is read as another number
  (`NumeralsSpec.OverflowIsMissed`). A number is read right exactly if 64 bits can hold it
  (`NumeralsSpec.RightIffFits`), and a digit that overflows is caught exactly if the wrapped number falls
  (`NumeralsSpec.DigitBehind`).
- Behind `0x` ten control characters count as hexadecimal digits (`NumeralsSpec.HexDigits`), and a decimal zero before
  an `x` is read as a prefix (`NumeralsSpec.DecimalRoundTrip`).

## Model

| member | source | states |
|---|---|---|
| `ZipHash.HashPointer` | deps/ziptree.c:23-30 | the loop over the octets of an address computes its hash in 32-bit arithmetic |
| `ZipHash.HashIsPolynomial` | deps/ziptree.c:23-30 | the hash is the polynomial of the octets at 65599, modulo 2^32 |
| `ZipRanks.PtrHashIs` | deps/ziptree.c:23-30 | the hash is the sum of the eight octets of the address times the powers of 65599, the highest octet with the lowest power, modulo 2^32 |
| `ZipTree.SidesByOrder` | deps/ziptree.c:54-73 | in a tree with search and heap order the left elements are exactly the smaller ones and the right elements the larger |
| `ZipTree.ShapeIsCanonical` | deps/ziptree.c:54-73 | two trees with search and heap order and the same elements are equal |
| `ZipTree.UnzipSplits` | deps/ziptree.c:307-350 | unzip at any cut gives two valid trees that hold exactly the elements before and behind the cut |
| `ZipTree.ZipJoins` | deps/ziptree.c:243-266 | zip of two valid trees, one before the other, is valid and holds the elements of both |
| `ZipTree.ZipUndoesUnzip` | deps/ziptree.c:243-350 | zipping the two halves of an unzip rebuilds the tree node for node |
| `ZipTree.UnzipUndoesZip` | deps/ziptree.c:243-350 | unzipping a zip at its boundary gives back the two parts |
| `ZipTree.UnzipAtKey` | deps/ziptree.c:307-350 | unzip at a key puts exactly the keys up to it left and the larger keys right, both trees valid, and zip rebuilds the tree |
| `ZipTree.InsertAdds` | deps/ziptree.c:112-167 | inserting an absent element keeps the tree valid and adds exactly this element |
| `ZipTree.RemoveDeletes` | deps/ziptree.c:169-193 | removing keeps the tree valid and takes out exactly the element, also if it is absent |
| `ZipTree.RemoveUndoesInsert` | deps/ziptree.c:112-193 | removing a just-inserted element restores the exact previous tree |
| `ZipTree.FindIsTopmost` | deps/ziptree.h:121-134 | find returns an element exactly if one has an equal key, and then the one of highest rank |
| `ZipTree.RunIsValid` | deps/ziptree.c:112-193 | after any run of legal inserts and removes the tree is valid and holds exactly the elements inserted and not removed |
| `ZipTree.RunsConverge` | deps/ziptree.c:112-193 | runs that leave the same elements end in the same tree |
| `ZipTree.InOrderIsSorted` | deps/ziptree.c:195-209 | the in-order listing holds every element once, in search order |
| `ZipRanks.ValidIsRanked` | deps/ziptree.c:33-51 | in a valid tree every element below another has a smaller hash, or the same hash and a smaller address |
| `ZipRanks.RunsInNumbers` | deps/ziptree.c:33-51 | after any legal run larger ranks stand above smaller ones in plain numbers, and the listing increases by key and then by address |
| `ZipTree.SkippedSide` | deps/ziptree.c:211-241 | the subtrees that key iteration skips hold no equal key |
| `ZipTree.VisitConcat` | deps/ziptree.c:211-241 | iterating over two lists stops in the first one if its callback does, and otherwise goes on in the second |
| `ZipMemory.Heap.MoveAside` | deps/ziptree.c:78-110 | the loop of the move helpers splits the spine in memory into the part that stays and the part that moves, and changes only edges of that part |
| `ZipMemory.Heap.FindPlace` | deps/ziptree.c:119-141 | the descent of insert ends at the element's place, and at the element itself if it is already there |
| `ZipMemory.Heap.Insert` | deps/ziptree.c:112-167 | insert clears the element's links and leaves the tree that `Insert` gives for the rest; only edges change |
| `ZipMemory.Heap.Place` | deps/ziptree.c:143-166 | the element takes the place found, with the unzipped rest below it |
| `ZipMemory.Heap.SplitBelow` | deps/ziptree.c:156-166 | the subtree hung below the element is unzipped at it |
| `ZipMemory.Heap.FindEdge` | deps/ziptree.c:172-188 | the descent of remove ends at the element, or at NULL exactly if it is not in the tree |
| `ZipMemory.Heap.Remove` | deps/ziptree.c:169-193 | remove leaves the tree without the element and returns it, or NULL exactly if it was absent |
| `ZipMemory.Heap.Cut` | deps/ziptree.c:189-192 | the zip of the two subtrees takes the place of the removed element |
| `ZipMemory.Heap.Zip` | deps/ziptree.c:243-266 | the zip loop builds the zip of the two trees and changes only their edges |
| `ZipMemory.Heap.Unzip` | deps/ziptree.c:307-350 | the unzip loops leave the two halves of the tree |
| `ZipMemory.Heap.UnzipSpine` | deps/ziptree.c:320-349 | the spine that stays with the root and the tree of the other side |
| `ZipMemory.Heap.SplitOff` | deps/ziptree.c:323-348 | where the side changes, the moved part is cut off the spine and rooted by its first element |
| `ZipMemory.Heap.Find` | deps/ziptree.h:121-134 | the loop ends at the subtree that `Find` gives |
| `ZipMemory.Heap.IterKey` | deps/ziptree.c:211-241 | the recursion calls the callback for exactly the elements with an equal key, in order, up to the first non-NULL result |
| `ZipMemory.ReinsertKeepsIffChildless` | deps/ziptree.c:112-134 | inserting an element that is already in the tree keeps the tree exactly if the element has no children |
| `NodeStoreSpec.ChosenIdIsUnused` | plugins/ua_nodestore_ziptree.c:264-310 | a generated id is the first candidate that is not in use, and a given id is kept |
| `NodeStoreSpec.CounterWraps` | plugins/ua_nodestore_ziptree.c:149-162 | the 16-bit counter is the number of handles modulo 65536 |
| `NodeStoreSpec.StepKeepsInv` | plugins/ua_nodestore_ziptree.c:108-396 | every operation keeps the invariant: indexed entries exist, carry their id and are not marked deleted, ids are distinct, counters follow the handles |
| `NodeStoreSpec.FreedWhenUnreferenced` | plugins/ua_nodestore_ziptree.c:114-128 | an entry disappears only when it has left the index and its counter is zero, or when its owner gives it up |
| `NodeStoreSpec.StepKeepsLive` | plugins/ua_nodestore_ziptree.c:114-128 | with at most 65535 handles per entry no step frees an entry that has a handle |
| `NodeStoreSpec.RunKeepsLive` | plugins/ua_nodestore_ziptree.c:114-396 | the same for every run |
| `NodeStoreSpec.FreesUnderHandleIff` | plugins/ua_nodestore_ziptree.c:114-396 | any operation frees an entry under handles exactly if it lets the entry go and leaves a positive multiple of 65536 handles |
| `NodeStoreSpec.GetsCount` | plugins/ua_nodestore_ziptree.c:149-162 | any number of gets is legal and counts the handles |
| `NodeStoreSpec.OverflowFreesUnderHandles` | plugins/ua_nodestore_ziptree.c:149-162 | after 65536 gets of a node that nobody held, a remove frees it under all of them |
| `NodeStoreSpec.GoneForever` | plugins/ua_nodestore_ziptree.c:212-396 | an entry that has left the index never comes back, and a freed entry stays freed, over every run |
| `NodeStoreSpec.TakenIsGone` | plugins/ua_nodestore_ziptree.c:350-396 | the entry that a successful replace or remove takes out has left the index |
| `NodeStoreSpec.StaleCopyFails` | plugins/ua_nodestore_ziptree.c:222-396 | after a replace or remove of an entry no copy of it ever replaces anything, whatever happens in between |
| `NodeStoreSpec.CopyRestores` | plugins/ua_nodestore_ziptree.c:222-252 | getting a node, copying it and releasing it leaves only the copy behind |
| `NodeStoreSpec.ReplaceRestores` | plugins/ua_nodestore_ziptree.c:350-380 | the reference taken while replacing does not outlive the call |
| `NodeStore.CmpIsOrder` | plugins/ua_nodestore_ziptree.c:34-48 | comparing hashes and then ids is a total order |
| `NodeStore.FindIsIndex` | plugins/ua_nodestore_ziptree.c:34-48 | lookup by hash and then id finds an entry exactly if the id is in the index, and then its entry |
| `NodeStore.Store.constructor` | plugins/ua_nodestore_ziptree.c:450-478 | a new store is empty and valid |
| `NodeStore.Store.GetEntry` | plugins/ua_nodestore_ziptree.c:149-162 | finds the entry in the tree and counts the handle, or returns NULL |
| `NodeStore.Store.Cleanup` | plugins/ua_nodestore_ziptree.c:114-128 | frees the entry exactly if it is marked deleted and its counter is zero |
| `NodeStore.Store.Release` | plugins/ua_nodestore_ziptree.c:212-220 | counts the handle down and cleans up |
| `NodeStore.Store.NewEntry` | plugins/ua_nodestore_ziptree.c:66-106 | a fresh entry that only the caller knows |
| `NodeStore.Store.DeleteEntry` | plugins/ua_nodestore_ziptree.c:108-112 | gives up an entry that only the caller knows |
| `NodeStore.Store.GetNodeCopy` | plugins/ua_nodestore_ziptree.c:222-252 | the copy remembers the entry it was made from, and the store is otherwise unchanged |
| `NodeStore.Store.PickId` | plugins/ua_nodestore_ziptree.c:264-310 | the loop over candidates picks the first unused id, and reports whether a given id is taken |
| `NodeStore.Store.InsertNode` | plugins/ua_nodestore_ziptree.c:254-348 | does the insert of the state machine and keeps the tree in step with the index; that a good answer stores the node under its id, and what is refused, are `NodeStoreLaws.InsertStores` and `NodeStoreLaws.InsertRefused` |
| `NodeStoreLaws.InsertRefused` | plugins/ua_nodestore_ziptree.c:254-348 | an insert fails exactly if the given id is in use or there is no room for a further reference type, and then frees only the node and leaves the contents |
| `NodeStoreLaws.InsertStores` | plugins/ua_nodestore_ziptree.c:264-348 | otherwise the contents are the old ones with the node under its id, which was not in use; a reference type gets the next index |
| `NodeStoreLaws.ReplaceStores` | plugins/ua_nodestore_ziptree.c:350-380 | a replace succeeds exactly if its origin is what the id holds, and then changes exactly this node |
| `NodeStoreLaws.RemoveForgets` | plugins/ua_nodestore_ziptree.c:382-396 | a remove takes exactly the id out of the contents and frees the entry exactly if its counter is zero |
| `NodeStoreLaws.GetFinds` | plugins/ua_nodestore_ziptree.c:149-162 | a get answers what the contents hold under the id and adds one handle |
| `NodeStoreLaws.CopyMakes` | plugins/ua_nodestore_ziptree.c:222-252 | a copy is a new entry with the node and its origin, owned by the caller |
| `NodeStoreLaws.ReleaseGives` | plugins/ua_nodestore_ziptree.c:212-220 | a release takes one handle and frees the entry exactly if it is deleted and the counter is zero |
| `NodeStoreLaws.OwnersEntries` | plugins/ua_nodestore_ziptree.c:66-112 | new entries belong to the caller, and giving one up touches nothing else |
| `NodeStoreLaws.UnnamedKept` | plugins/ua_nodestore_ziptree.c:66-396 | no operation touches the node under an id that it does not name |
| `NodeStoreLaws.KeptOverRuns` | plugins/ua_nodestore_ziptree.c:66-396 | over every run a node stays as it is as long as its id is not named |
| `NodeStoreLaws.InsertedIsFound` | plugins/ua_nodestore_ziptree.c:149-396 | a node that was inserted is found with its content after every such run |
| `NodeStore.Store.ReplaceNode` | plugins/ua_nodestore_ziptree.c:350-380 | does exactly what the specified replace does, with the tree kept in step |
| `NodeStore.Store.Exchange` | plugins/ua_nodestore_ziptree.c:371-379 | the copy takes the tree place of the old entry, which is marked and released |
| `NodeStore.Store.RemoveNode` | plugins/ua_nodestore_ziptree.c:382-396 | takes the entry out of the tree, marks it and cleans up, or reports an unknown id |
| `NodeStore.Store.RemoveFromTree` | plugins/ua_nodestore_ziptree.c:391-392 | the tree and the index lose exactly this id |
| `NodeStore.Store.InsertIntoTree` | plugins/ua_nodestore_ziptree.c:343-346 | the tree and the index gain exactly this id, with its entry |
| `PowersTen.TableIsAccurate` | deps/dtoa.c:65-110 | each of the 87 cached powers is within half a unit of its power of ten |
| `PowersTen.TableShape` | deps/dtoa.c:65-110 | each of their fractions is in [2^63, 2^64) |
| `Grisu.BuildFpRange` | deps/dtoa.c:132-143 | fraction and exponent of every finite non-zero double are in range |
| `Grisu.Normalize` | deps/dtoa.c:145-153 | the loops shift the top bit to bit 63 and keep the value |
| `Grisu.NormalizedBoundaries` | deps/dtoa.c:155-172 | the boundaries are the midpoints to the neighbouring doubles, at one exponent; below a power of two the lower one is nearer |
| `Grisu.Multiply` | deps/dtoa.c:174-187 | the four partial products give exactly the rounded upper half of the 128-bit product, without overflow |
| `Grisu.ProductFits` | deps/dtoa.c:174-187 | the rounded upper half is below 2^64 |
| `Grisu.FirstGuessInTable` | deps/dtoa.c:112-117 | the first guess is an index of the table for every exponent that occurs |
| `Grisu.FindCachedPower` | deps/dtoa.c:112-130 | from any index of the table the search ends at a power that scales into the window, the one that following the search step by step gives |
| `GrisuDigits.RoundDigit` | deps/dtoa.c:189-196 | the last digit goes down by exactly as many steps as bring the decimal nearer to the value inside the interval |
| `GrisuDigits.IntegerDigits` | deps/dtoa.c:209-230 | the loop over the integer part stops at the first digit that reaches the interval, or leaves the exact rest |
| `GrisuDigits.FractionDigits` | deps/dtoa.c:232-252 | the loop over the fraction stops at the first digit that reaches the interval, without 64-bit overflow |
| `GrisuDigits.GenerateDigits` | deps/dtoa.c:198-253 | at most 17 digits, the first not zero, that denote a decimal inside the scaled interval; the last is zero exactly in a tie |
| `GrisuDigits.RoundsToZeroIff` | deps/dtoa.c:189-196 | rounding reaches zero exactly if it ends at the lower bound and that is nearer than half a unit |
| `GrisuDigits.ZeroIffTie` | deps/dtoa.c:232-252 | the last digit ends as zero exactly in a tie |
| `GrisuInterval.MarginHolds` | deps/dtoa.c:255-269 | half a unit of error in the power and in each product stays inside the margin of one unit |
| `GrisuInterval.GeneratedInside` | deps/dtoa.c:255-269 | a decimal inside the scaled interval lies strictly between the exactly scaled boundaries |
| `GrisuInterval.ScaleByPower` | deps/dtoa.c:255-268 | value and boundaries scaled by the cached power that the search finds, as functions of the bits, with the midpoints they stand for |
| `GrisuInterval.Grisu2` | deps/dtoa.c:255-269 | for every finite non-zero double at most 17 digits whose decimal lies strictly between the midpoints to its neighbours; the last one is zero exactly if the scaled interval of the bits ends in a tie |
| `GrisuInterval.ZeroTailPower` | deps/dtoa.c:112-130 | for the double 5.78735773515625e-277 the search ends at entry 79 of the table |
| `GrisuInterval.TrailingZero` | deps/dtoa.c:255-269 | the double 5.78735773515625e-277, given by its bits, ends in such a tie |
| `Dtoa.EmitLength` | deps/dtoa.c:271-334 | the text has at most 26 characters, and with its sign more than 24 exactly if it is an integer padded with up to seven zeros that is long enough |
| `Dtoa.EmitReadsBack` | deps/dtoa.c:271-334 | reading the text gives exactly the number that digits and exponent denote, in all three layouts |
| `DtoaLayout.LayoutIs` | deps/dtoa.c:271-334 | the text has an exponent exactly if at least eight zeros would end it, or at least seven places stand behind the point and the number is below 0.001 or not below 10000; otherwise the point stands where the size of the number puts it, and the exponent is that of the first digit |
| `Dtoa.EmitDigits` | deps/dtoa.c:271-334 | the buffer gets exactly this text |
| `Dtoa.NearestDouble` | deps/dtoa.c:155-172 | a decimal strictly between the midpoints is nearer to its double than to any other finite double or zero |
| `Dtoa.PrintFinite` | deps/dtoa.c:366-370 | a finite double prints as the layout of digits of a decimal in its rounding interval |
| `Dtoa.Print` | deps/dtoa.c:336-371 | every double prints in at most 27 characters: zero, infinities, nan, or the layout of digits of a decimal in the rounding interval, with its sign where the code shows it |
| `Dtoa.PrintedInside` | deps/dtoa.c:336-371 | the printed text denotes a decimal strictly between the midpoints to the neighbouring doubles |
| `Dtoa.PrintedIsNearest` | deps/dtoa.c:336-371 | every other double is farther from the printed number, so a correctly rounding reader gets the double back |
| `Dtoa.LongOutput` | deps/dtoa.c:271-371 | one double is printed in 26 characters, and 27 with its sign |
| `Dtoa.LongNumbers` | deps/dtoa.c:271-371 | only doubles from about 10^21 to 10^24 are printed in more than 24 characters |
| `SequenceNumbers.OpeningInStep` | src/ua_securechannel.c:696-716 | the opening exchange leaves both ends in step |
| `SequenceNumbers.StaysInStep` | src/ua_securechannel.c:692-735 | the next number sent is accepted and leaves both ends in step |
| `SequenceNumbers.SentIsAccepted` | src/ua_securechannel.c:692-735 | whatever is sent in order is accepted, for any number of chunks and across every rollover, in both schemes |
| `SequenceNumbers.AcceptedIsConsecutive` | src/ua_securechannel.c:719-735 | in the full scheme accepted numbers count up modulo 2^32 |
| `SequenceNumbers.LegacyDepartures` | src/ua_securechannel.c:719-735 | in the legacy scheme accepted numbers leave the count only at or above the rollover value and land below 1024 |
| `SequenceNumbers.NoEarlyRepeat` | src/ua_securechannel.c:719-735 | in the full scheme a number comes back only after all 2^32 were used |
| `ChannelSpec.TakeExtends` | src/ua_securechannel.c:865-946 | bytes behind a complete chunk do not matter for it |
| `ChannelSpec.DeliveriesExtend` | src/ua_securechannel.c:973-1113 | bytes that arrive later continue where the receiver stands |
| `ChannelSpec.DrainExtends` | src/ua_securechannel.c:973-1113 | what was drained, followed by what the rest gives with later bytes, is what all bytes give |
| `ChannelSpec.NothingLost` | src/ua_securechannel.c:948-1154 | for every way to cut the stream: what was delivered, followed by what the kept bytes still give, is what the uncut stream gives |
| `ChannelSpec.DrainCompleteIff` | src/ua_securechannel.c:981-986 | draining takes every complete chunk exactly if none follows a chunk without content |
| `ChannelSpec.SplitInvariance` | src/ua_securechannel.c:948-1154 | without empty chunks every way to cut the stream delivers the same messages and ends in the same state |
| `ChannelSpec.EndsWaiting` | src/ua_securechannel.c:973-1113 | after an uninterrupted run no complete chunk waits |
| `ChannelDelivery.HandleKeepsLimits` | src/ua_securechannel.c:988-1112 | handling a chunk keeps the queue within the limits, and a delivered message is within them |
| `ChannelDelivery.LimitsHold` | src/ua_securechannel.c:973-1113 | whatever bytes arrive, queue and delivered messages stay within the configured limits |
| `ChannelDelivery.OtherRequestsKept` | src/ua_securechannel.c:1051-1105 | taking out the chunks of one request leaves those of every other request as they were |
| `ChannelDelivery.EncodedFields` | src/ua_securechannel.c:443-470 | the header fields of a sent chunk are read back |
| `ChannelDelivery.TakeEncoded` | src/ua_securechannel.c:443-946 | an encoded chunk at the front of the stream is taken whole, with its number accepted |
| `ChannelDelivery.WireDelivers` | src/ua_securechannel.c:443-1113 | the receiver delivers what the sent chunks assemble to, in any interleaving of requests |
| `ChannelDelivery.InterleavedDelivery` | src/ua_securechannel.c:443-1154 | the same for every way to cut the bytes: each message once and in order, and the same queue and last number |
| `ChannelDelivery.AssembledIsCompletions` | src/ua_securechannel.c:1027-1112 | every final chunk completes exactly the concatenation of what was sent for its request since the last one |
| `ChannelDelivery.StreamAssembles` | src/ua_securechannel.c:997-1112 | messages split into allowed chunks are accepted and assemble to themselves |
| `ChannelDelivery.EndToEnd` | src/ua_securechannel.c:443-1154 | messages split into allowed chunks are delivered exactly as sent, once and in order, for every way to cut the bytes |
| `ChannelDelivery.PolicyNoneIsSteady` | src/ua_securechannel.c:815-863 | security policy None meets the assumptions of these results |
| `ChannelDelivery.EmptyChunkDelays` | src/ua_securechannel.c:981-986 | a message behind an empty chunk waits for the next buffer, and arrives at once if the bytes are cut behind the empty chunk |
| `Channel.SecureChannel.constructor` | src/ua_securechannel.c:30-37 | a new channel has nothing pending and nothing queued |
| `Channel.SecureChannel.NextSequenceNumber` | src/ua_securechannel.c:696-716 | the number sent and the new counter, in both schemes |
| `Channel.SecureChannel.ProcessSequenceNumber` | src/ua_securechannel.c:719-735 | a number is stored exactly if it is accepted, and otherwise nothing changes |
| `Channel.SecureChannel.EncodeChunk` | src/ua_securechannel.c:443-470 | the bytes of a chunk with the next sequence number |
| `Channel.SecureChannel.LoadBuffer` | src/ua_securechannel.c:948-971 | the pending bytes grow by the buffer |
| `Channel.SecureChannel.PersistBuffer` | src/ua_securechannel.c:1115-1154 | afterwards nothing refers to the network layer's memory, and queue and pending bytes are the same |
| `Channel.SecureChannel.CopyUnprocessed` | src/ua_securechannel.c:1130-1153 | the pending bytes are copied, and the same |
| `Channel.SecureChannel.CopyChunks` | src/ua_securechannel.c:1119-1128 | queued chunks that point into the buffer are copied, and the queue is the same |
| `Channel.SecureChannel.UnpackBody` | src/ua_securechannel.c:738-863 | does the unpacking of the specification on the aliased buffer; which number is read and when it is refused are `ChannelNumbers.NumberChecked` and `ChannelNumbers.OpeningTaken` |
| `ChannelNumbers.TypesAre` | src/ua_securechannel.c:865-946 | the types of messages and chunks are the letters at the beginning of the frame |
| `ChannelNumbers.FramesTaken` | src/ua_securechannel.c:865-946 | waits exactly for the rest of a frame, refuses sizes below 16 or above the receive buffer, and goes on behind the frame |
| `ChannelNumbers.AcceptsIs` | src/ua_securechannel.c:719-735 | which number follows the last one, with the rollover of both schemes in plain numbers |
| `ChannelNumbers.NumberChecked` | src/ua_securechannel.c:801-863 | a symmetric chunk is refused with a security error exactly if the number in its octets does not follow the last one; otherwise this number is the last one |
| `ChannelNumbers.ChunkTaken` | src/ua_securechannel.c:738-1113 | what becomes of a symmetric chunk, by its number, request, payload, mark and the limits |
| `ChannelNumbers.OpeningTaken` | src/ua_securechannel.c:738-863 | an opening chunk sets the last number and carries the request in its octets |
| `ChannelNumbers.MisfitsRefused` | src/ua_securechannel.c:865-946 | frames of unknown type, with the wrong mark or in the wrong state are refused and leave the state |
| `ChannelNumbers.ChecksRefused` | src/ua_securechannel.c:738-863 | a chunk that fails the security checks or is too short is refused and leaves the state |
| `ChannelNumbers.NumbersCount` | src/ua_securechannel.c:719-735 | over every run the numbers of the symmetric chunks taken count up from the last one |
| `ChannelNumbers.ReplayRefused` | src/ua_securechannel.c:719-735 | a number that was taken is refused again until 2^32 chunks later |
| `ChannelNumbers.RepeatRefused` | src/ua_securechannel.c:719-735 | a chunk repeated at once is refused in both schemes |
| `ChannelNumbers.EncodedOctets` | src/ua_securechannel.c:443-470 | where type, mark, size, channel, token, number and request stand in a frame that is sent |
| `SequenceNumbers.SentNumbers` | src/ua_securechannel.c:696-716 | the i-th number sent in plain numbers, in both schemes |
| `Channel.SecureChannel.UnpackFrame` | src/ua_securechannel.c:896-945 | the complete chunk leaves the buffer and is unpacked by its type |
| `Channel.SecureChannel.ExtractCompleteChunk` | src/ua_securechannel.c:865-946 | the next complete chunk, nothing if there is none yet, or the error of its header; in the last two cases nothing changes |
| `Channel.SecureChannel.MessageSize` | src/ua_securechannel.c:1027-1041 | the size of the assembled message, or that chunk types are mixed |
| `Channel.SecureChannel.TakeChunks` | src/ua_securechannel.c:1051-1093 | the contents of the request's chunks in order of arrival, which leave the queue |
| `Channel.SecureChannel.AssembleMessage` | src/ua_securechannel.c:1027-1112 | the message that a final chunk completes, or the error of the limits |
| `Channel.SecureChannel.QueueChunk` | src/ua_securechannel.c:997-1019 | an intermediate chunk is appended if the limits allow it |
| `Channel.SecureChannel.DeleteChunks` | src/ua_securechannel.c:202-211 | the queue and its counters are empty |
| `Channel.SecureChannel.ProcessChunk` | src/ua_securechannel.c:981-1112 | one round does what the specified step does |
| `Channel.SecureChannel.GetCompleteMessage` | src/ua_securechannel.c:973-1113 | the loop returns the next message, or nothing, or an error, as specified |
| `Channel.SecureChannel.Receive` | src/ua_securechannel.c:948-1154 | loading, serving and persisting a buffer serves exactly the messages that draining gives |
| `ChunkedSpec.StaysSound` | deps/picohttpparser.c:554-619 | the size never exceeds 64 bits, because 17 digits are refused |
| `ChunkedSpec.DecodeSplits` | deps/picohttpparser.c:545-698 | decoding in two pieces is decoding at once |
| `ChunkedSpec.CallsSplit` | deps/picohttpparser.c:545-698 | two calls, the first asking for more, give the output, result, trailing octets and decoder of one call |
| `ChunkedSpec.GuardIsSilent` | deps/picohttpparser.c:691-696 | below 100 KiB of overhead the guard never speaks |
| `ChunkedSpec.BodyDecodes` | deps/picohttpparser.c:545-698 | every coded body gives the data of its chunks and ends behind its last header |
| `ChunkedSpec.BodyWithTrailerDecodes` | deps/picohttpparser.c:545-698 | the same with a trailer section of any lines up to one of carriage returns alone |
| `ChunkedSpec.OnlyBodiesDecode` | deps/picohttpparser.c:545-698 | an accepted body is some chunks, a last one without data and, if it is to be consumed, a trailer section; the output is the content of the chunks |
| `Chunked.ChunkedDecoder.ScanSize` | deps/picohttpparser.c:554-586 | the loop over the digits does what the machine does, octet by octet; that the digits are hexadecimal ones with their values is `ChunkedSizes.DigitValues` |
| `ChunkedSizes.DigitValues` | deps/picohttpparser.c:532-543 | a digit is worth its place in 0123456789ABCDEF or 0123456789abcdef, and other octets are none |
| `ChunkedSizes.NumeralReads` | deps/picohttpparser.c:554-586 | every numeral written with one of these literals reads as its number |
| `ChunkedSizes.SizedChunkDecodes` | deps/picohttpparser.c:554-658 | a chunk whose size is written so decodes to its data, whatever follows |
| `ChunkedSizes.WrittenBodyDecodes` | deps/picohttpparser.c:545-698 | a body of such chunks and a zero decodes to the data joined and ends there |
| `ChunkedPrefixes.AnswersAre` | deps/picohttpparser.c:545-698 | whatever was read so far, more is asked for exactly if some octets complete it, and it is refused exactly if none do |
| `ChunkedPrefixes.ReturnsAre` | deps/picohttpparser.c:685-698 | the number returned is that of the octets behind the body, or -2 or -1, with the guard against overhead in plain numbers |
| `Chunked.ChunkedDecoder.ScanExt` | deps/picohttpparser.c:588-601 | the same for the rest of the header line |
| `Chunked.ChunkedDecoder.ExpectHeaderLf` | deps/picohttpparser.c:603-619 | the same for its end |
| `Chunked.ChunkedDecoder.CopyData` | deps/picohttpparser.c:621-637 | the data that is there moves down, and no octet that is not yet read changes |
| `Chunked.ChunkedDecoder.ExpectDataEnd` | deps/picohttpparser.c:639-658 | the line end behind the data |
| `Chunked.ChunkedDecoder.ScanTrailerHead` | deps/picohttpparser.c:659-668 | the start of a trailer line |
| `Chunked.ChunkedDecoder.ScanTrailerMiddle` | deps/picohttpparser.c:670-679 | the rest of a trailer line |
| `Chunked.ChunkedDecoder.DecodeChunked` | deps/picohttpparser.c:545-698 | a call on the buffer does what the specified call does: output in front, trailing octets behind it, result, decoder and counters |
| `Chunked.ChunkedDecoder.Finish` | deps/picohttpparser.c:685-698 | the gap is closed and the result computed |
| `YxmlSpec.ControlSuits` | deps/yxml.c:311-1026 | every entry of the table keeps the discipline between states and stack actions |
| `YxmlTree.KeepsShape` | deps/yxml.c:311-1026 | every octet without an error keeps the stack's shape: open names, and one more exactly inside an attribute or instruction |
| `YxmlTree.ParseFollows` | deps/yxml.c:311-1026 | one octet: the tree grows by exactly the token that is returned |
| `YxmlTree.RunFollows` | deps/yxml.c:311-1026 | the tokens of a run without an error are those of a document, of which some elements may still be open |
| `YxmlTree.CloseMatches` | deps/yxml.c:229-240 | a close tag that is accepted names the innermost open element |
| `YxmlTree.WellNested` | deps/yxml.c:184-1026 | in every run without an error starts and ends are well nested with equal names, and the stack is the list of open names |
| `YxmlTree.OneRoot` | deps/yxml.c:1028-1032 | a document accepted to its end is exactly one element |
| `YxmlData.Utf8ReadsBack` | deps/yxml.c:124-141 | the octets of a code point read back as the code point and hold no zero |
| `YxmlData.RefCharsIff` | deps/yxml.c:291-293 | references are limited to the characters of XML 1.1 exactly outside two ranges |
| `YxmlData.DataIffToken` | deps/yxml.c:143-182 | a step that succeeds leaves data exactly if it returns a token of content, of a value or of an instruction |
| `Yxml.RefMoves` | deps/yxml.c:385-392 | every entry of the table enters and leaves references only by their actions, so the buffer holds the name in between |
| `YxmlLines.LineEnds` | deps/yxml.c:320-334 | a text and the same text with every line end as a line feed are taken or refused alike, with the same starts and ends |
| `YxmlLines.LineEndsGo` | deps/yxml.c:320-334 | and give the same tokens with the same data |
| `Yxml.Parser.constructor` | deps/yxml.c:301-309 | a new parser is in the start state, with a zeroed data buffer of its own |
| `Yxml.Parser.PushStack` | deps/yxml.c:184-193 | a name is pushed behind a zero, or the stack is full and unchanged |
| `Yxml.Parser.PushStackOctet` | deps/yxml.c:195-202 | the name on top grows, or the stack is full and unchanged |
| `Yxml.Parser.PopStack` | deps/yxml.c:204-208 | the loop drops exactly the name on top and never underflows |
| `Yxml.Parser.FindTop` | deps/yxml.c:216-227 | the loop finds the beginning of the name on top |
| `Yxml.Parser.SelfClose` | deps/yxml.c:216-227 | the innermost element ends; behind the root only the epilog may follow |
| `Yxml.Parser.ActElemStart` | deps/yxml.c:210-212 | the first octet of an element's name is pushed |
| `Yxml.Parser.ActGrow` | deps/yxml.c:210-248 | further octets of names |
| `Yxml.Parser.ActCloseName` | deps/yxml.c:229-234 | the next octet of a close tag's name must be that of the open name |
| `Yxml.Parser.ActCloseEnd` | deps/yxml.c:236-240 | the close tag's name must be complete |
| `Yxml.Parser.ActPop` | deps/yxml.c:242-253 | the name of an attribute or instruction is dropped |
| `Yxml.Parser.ActPiNameEnd` | deps/yxml.c:250-252 | the name of an instruction must not be xml in any case |
| `Yxml.Parser.PutData` | deps/yxml.c:143-182 | the data of content, values and instructions, with the brackets or the question mark held back, and tabs and line feeds in values as spaces |
| `Yxml.Parser.ActRefStart` | deps/yxml.c:255-259 | the loop clears the buffer for a reference |
| `Yxml.Parser.ActRefName` | deps/yxml.c:261-267 | the name of a reference grows in the buffer, or is refused if it is too long; a zero always follows it |
| `Yxml.Parser.ReadHex` | deps/yxml.c:273-280 | the loop over the buffer gives the hexadecimal number, or zero if something else follows |
| `Yxml.Parser.ReadDecimal` | deps/yxml.c:273-280 | the same for the decimal number |
| `Yxml.EntityNames` | deps/yxml.c:281-289 | comparing five octets of the buffer is comparing the names of entities |
| `Yxml.Parser.ReadReference` | deps/yxml.c:269-289 | the loops over the buffer compute the code point that `RefValue` gives; what it is for every reference is `YxmlReferences.RefDenotes` |
| `YxmlReferences.RefDenotes` | deps/yxml.c:269-289 | a reference stands for a character exactly if it is one of the five names with its own character, or a number sign with decimal digits or an x with hexadecimal ones, of that number |
| `YxmlReferences.ReferenceIff` | deps/yxml.c:269-299 | which references of at most seven characters are taken, and that their data is the UTF-8 of the character |
| `YxmlReferences.NamesAreSeen` | deps/yxml.c:269-299 | behind lt, gt, amp, apos and quot a client sees their characters, in content and in attributes |
| `YxmlReferences.NumbersAreSeen` | deps/yxml.c:269-299 | behind the decimal or hexadecimal numeral of a character a client sees its UTF-8 |
| `YxmlReferences.ClassesAre` | deps/yxml.c:101-113 | the classes of octets against the literals of their characters |
| `YxmlReferences.XmlIs` | deps/yxml.c:250-252 | the forbidden name of an instruction is xml in any case and nothing else |
| `YxmlErrors.CloseErrorIff` | deps/yxml.c:229-241 | the error of a close tag is reported exactly if its name departs from the open one or ends before it |
| `YxmlErrors.RefErrorIff` | deps/yxml.c:261-299 | the error of a reference is reported exactly at its eighth character, or at its end if it stands for no allowed character |
| `YxmlErrors.StackErrorIff` | deps/yxml.c:184-205 | the error of the stack is reported exactly if a name has no room |
| `YxmlDocument.OctetsSeen` | deps/yxml.c:177-182 | position by position, tabs and line feeds of a value are seen as blanks and all else as written |
| `Yxml.Parser.SetUtf8` | deps/yxml.c:124-141 | the buffer holds the UTF-8 octets of the code point and a zero |
| `Yxml.Parser.ActRefEnd` | deps/yxml.c:269-299 | the reference in the buffer is replaced by its character, or refused exactly if that is not allowed |
| `Yxml.Parser.Parse` | deps/yxml.c:311-1026 | one octet does what the specified step does; without an error the byte array is again the list of names, each behind a zero, shorter than the array, and with a token of data the buffer holds that data and a zero |
| `Yxml.Parser.EndOfInput` | deps/yxml.c:1028-1032 | accepts the end only behind the root, and then no name is left on the stack |
| `YxmlClient.GoesRuns` | deps/yxml.c:311-1026 | octets that give tokens without an error are a run without an error |
| `YxmlClient.NameGoes` | deps/yxml.c:184-202 | a name of an element, attribute or instruction goes onto the stack octet by octet |
| `YxmlMarkup.RefGoes` | deps/yxml.c:255-299 | a reference in content or in a value is seen as the UTF-8 octets of its character |
| `YxmlDocument.ValueAsWritten` | deps/yxml.c:177-182 | a value is seen as it was written exactly if it holds no tab, no line feed and no reference |
| `YxmlDocument.ValueGoes` | deps/yxml.c:373-392 | a value is seen with tabs and line feeds as spaces and references as their characters |
| `YxmlDocument.AttrGoes` | deps/yxml.c:344-392 | an attribute, with blanks around its equals sign, is seen with its name, its normalised value and its end, and its name leaves the stack |
| `YxmlDocument.OpenGoes` | deps/yxml.c:521-572 | a start tag is seen with its name and its attributes |
| `YxmlDocument.EmptyGoes` | deps/yxml.c:216-227 | a self-closing tag is seen as start, attributes and end |
| `YxmlDocument.CloseGoes` | deps/yxml.c:604-629 | the close tag of the innermost element is seen as its end |
| `YxmlDocument.CloseTagIff` | deps/yxml.c:604-629 | a close tag with any blanks at its end is taken exactly if there are none or the element is not the root |
| `YxmlMarkup.CommentGoes` | deps/yxml.c:423-458 | a comment gives no token and returns to where it stood |
| `YxmlMarkup.PiGoes` | deps/yxml.c:788-829 | an instruction is seen with its name, its octets, question marks included, and its end |
| `YxmlMarkup.PiTextIff` | deps/yxml.c:806-822 | a text without an end in it is taken in pairs of a question mark and an octet exactly if an even number of question marks ends it |
| `YxmlMarkup.PiEndIff` | deps/yxml.c:806-822 | the end of an instruction is seen exactly if an even number of question marks stands before it |
| `YxmlMarkup.CdataGoes` | deps/yxml.c:393-422 | character data in a CDATA section is seen as it was written, brackets included |
| `YxmlDocument.TagGoes` | deps/yxml.c:184-1026 | an element with its whole content gives exactly its own tokens and leaves the stack as it was |
| `YxmlProlog.DeclGoes` | deps/yxml.c:830-1024 | an XML declaration with version, encoding and standalone, and blanks where they may stand, is accepted and gives no token |
| `YxmlProlog.MiscsGo` | deps/yxml.c:459-520 | blanks, comments, instructions and a document type, with quoted strings and an internal subset, around the root give exactly the tokens of the instructions |
| `YxmlProlog.DocumentIsParsed` | deps/yxml.c:311-1032 | every written document, whatever its line ends, is accepted to its end, and a client sees exactly its elements, attributes, character data and instructions, with names and data, in order |
| `YxmlProlog.RootCloseTagWithBlanks` | deps/yxml.c:216-240 | an empty root element with blanks in its close tag is a syntax error exactly if there are any |
| `YxmlProlog.RootEndsWithBlank` | deps/yxml.c:216-240 | a blank in the place of the last octet of the root ends a document that is accepted |
| `YxmlScan.NameFits` | deps/yxml.c:184-202 | a name that is taken has room on the stack |
| `YxmlScan.RefScanned` | deps/yxml.c:255-299 | an accepted reference is one that stands for an allowed character |
| `YxmlScan.CommentScanned` | deps/yxml.c:423-458 | an accepted comment has no two dashes in its text |
| `YxmlScan.PiRestScanned` | deps/yxml.c:788-829 | an accepted instruction is a written one |
| `YxmlScan.CdataScanned` | deps/yxml.c:393-422 | an accepted CDATA section ends at the first possible place |
| `YxmlNodes.AttrsScanned` | deps/yxml.c:344-572 | accepted attributes are written ones, and the stack has room for their names |
| `YxmlNodes.CloseScanned` | deps/yxml.c:604-629 | an accepted close tag names the innermost element and ends as it may |
| `YxmlNodes.TagScanned` | deps/yxml.c:344-787 | an accepted element is a written one, with everything in it |
| `YxmlLanguage.DoctypeAt` | deps/yxml.c:459-520 | an accepted document type is a written one |
| `YxmlLanguage.DeclScanned` | deps/yxml.c:830-1024 | an accepted declaration is a written one |
| `YxmlLanguage.OnlyDocuments` | deps/yxml.c:311-1032 | every text that is accepted to its end is a written document for which the stack has room |
| `YxmlLanguage.AcceptedIff` | deps/yxml.c:311-1032 | the texts that are accepted to their end are exactly these documents, whatever their line ends |
| `Cj5Spec.TokenAt` | deps/cj5.c:303-531 | each token carries the range and size of its value, and its parent comes before it |
| `Cj5Spec.SubtreeIsBracketed` | deps/cj5.c:303-531 | the tokens of a subtree are consecutive and lie inside its range, and the next token lies behind it |
| `Cj5Spec.StartsIncrease` | deps/cj5.c:303-531 | starts strictly increase along the tokens |
| `Cj5Spec.Skip` | deps/cj5.c:730-737 | the loop stops at the first token that starts behind the end of the given one |
| `Cj5Spec.SkipLands` | deps/cj5.c:730-737 | on the tokens of a value that is the first token behind the whole subtree |
| `Cj5Build.OpenAppends` | deps/cj5.c:365-378 | opening a container appends its token |
| `Cj5Build.GrowAppends` | deps/cj5.c:443-449 | a new child appends its tokens and counts in its parent's |
| `Cj5Build.CloseCompletes` | deps/cj5.c:399-411 | closing a container completes its token and counts in its parent's |
| `Cj5Read.StringEnd` | deps/cj5.c:104-146 | the closing quote found ends a body without bare quotes and newlines, with escapes in pairs |
| `Cj5Read.NumberEnd` | deps/cj5.c:190-205 | the run of characters of a number, and no longer |
| `Cj5Read.BareAt` | deps/cj5.c:165-205 | an unquoted value is null, true, false in any case or a run of number characters |
| `Cj5Read.KeyAt` | deps/cj5.c:217-258 | a key is a quoted string or a name |
| `Cj5Write.GapRuns` | deps/cj5.c:337-349 | blanks and comments change nothing |
| `Cj5Write.ValueRuns` | deps/cj5.c:334-472 | reading a written value, wherever one is expected, adds exactly this value |
| `Cj5Write.WrittenIsRead` | deps/cj5.c:303-531 | every written document, with gaps, comments and trailing commas, reads as its own value |
| `Cj5Language.OnlyDocuments` | deps/cj5.c:303-531 | every text that the first pass reads is a written document, and what is read is its value |
| `Cj5Language.ReadIffDocument` | deps/cj5.c:303-531 | the texts that the first pass reads are exactly the written documents |
| `Cj5Literals.ClassesAre` | deps/cj5.c:80-86 | quotes and the characters of numbers and names against literals |
| `Cj5Literals.AtomsAre` | deps/cj5.c:165-205 | which texts are null, true, false and numbers, letter by letter in both cases |
| `Cj5Literals.WordsAreRead` | deps/cj5.c:165-205 | a text that is one word or number reads as one value of its kind that spans it |
| `Cj5Literals.StringsAreRead` | deps/cj5.c:104-146 | every text, escaped and in quotes, reads as one string between the quotes |
| `Cj5Literals.EmptyIsRead` | deps/cj5.c:351-424 | braces read as an object and brackets as an array |
| `Cj5Literals.PairIsRead` | deps/cj5.c:351-464 | a key, a colon and a word in braces read as an object of the two |
| `Cj5Literals.ListIsRead` | deps/cj5.c:351-464 | two words with a comma in brackets read as an array of the two |
| `Cj5.Tokenizer.AllocToken` | deps/cj5.c:88-102 | a token is written if there is room, and counted in any case |
| `Cj5.Tokenizer.ParseString` | deps/cj5.c:104-146 | an error exactly if the string has no closing quote, and otherwise its token |
| `Cj5.Tokenizer.Classify` | deps/cj5.c:165-205 | kind and extent of an unquoted value |
| `Cj5.Tokenizer.ParsePrimitive` | deps/cj5.c:152-215 | the token of a value that is not a container |
| `Cj5.Tokenizer.ParseKey` | deps/cj5.c:217-258 | the token of a key, or an error exactly if there is none |
| `Cj5.Tokenizer.SkipComment` | deps/cj5.c:260-301 | goes on behind the comment, or an error exactly if it is malformed |
| `Cj5.Tokenizer.OpenContainer` | deps/cj5.c:351-379 | refused exactly if too deep or if no value is expected, and otherwise the container is open |
| `Cj5.Tokenizer.CloseContainer` | deps/cj5.c:381-424 | refused exactly if it does not close the innermost container, and otherwise its value is complete |
| `Cj5.Tokenizer.Colon` | deps/cj5.c:426-432 | accepted exactly behind a key |
| `Cj5.Tokenizer.Comma` | deps/cj5.c:434-440 | accepted exactly behind an element |
| `Cj5.Tokenizer.Primitive` | deps/cj5.c:443-459 | the value becomes the next child, or the root |
| `Cj5.Tokenizer.Key` | deps/cj5.c:460-464 | the key becomes the next child |
| `Cj5.Tokenizer.Step` | deps/cj5.c:334-472 | one round at the current character does the machine's move, with stacks and token array kept in step |
| `Cj5.Tokenizer.Parse` | deps/cj5.c:303-531 | the first pass: an error exactly if the text does not read as one value; otherwise the tokens are the preorder listing of that value, and their number is returned also if there is no room for them |
| `CalendarSpec.YearStartIs` | deps/libc_time.c:100-146 | counting days year by year from 1970 by the leap rule agrees with the closed form |
| `CalendarSpec.NextDateIsNext` | deps/libc_time.c:14-85 | day numbers count dates: the next date has the next number |
| `CalendarSpec.DateIsUnique` | deps/libc_time.c:14-85 | no two dates share a day number |
| `CalendarSpec.FieldsAreUnique` | deps/libc_time.c:14-85 | valid fields are determined by the instant they denote |
| `CalendarDates.MonthsAre` | deps/libc_time.c:21 | the lengths of the months against a list |
| `CalendarDates.CycleRepeats` | deps/libc_time.c:38-55 | every 400 years, 146097 days, dates and days of the week repeat |
| `CalendarDates.EpochsAre` | include/open62541/types.h:328 | 1970 begins on a Thursday, and 1601 on a Monday 11644473600 seconds earlier |
| `CalendarDates.KnownDates` | deps/libc_time.c:14-85 | known dates have their day numbers and days of the week |
| `Calendar.FloorDivision` | deps/libc_time.c:27-33 | truncating division with the correction gives the floor quotient and a remainder in range |
| `Calendar.Cycles` | deps/libc_time.c:38-55 | the place of a day in the 400-, 100- and 4-year cycles, with the last day of a cycle in its last year |
| `Calendar.FindMonth` | deps/libc_time.c:63-64 | the loop finds the month of a day and never leaves its table |
| `Calendar.FindDate` | deps/libc_time.c:38-78 | year, month, day and day of the year of a day number by the calendar's rules |
| `Calendar.SecsToTm` | deps/libc_time.c:14-85 | fails exactly if the year does not fit into an int; otherwise all fields are in range and are those of the proleptic Gregorian date and time, weekday included |
| `Calendar.MonthToSecs` | deps/libc_time.c:87-98 | the seconds of a year before a month |
| `Calendar.FastYearToSecs` | deps/libc_time.c:102-110 | the fast path gives the start and the leap rule of every year from 1902 to 2038, within an int |
| `Calendar.Century` | deps/libc_time.c:121-141 | century, leap years so far and leap rule for a year of a 400-year cycle |
| `Calendar.YearToSecs` | deps/libc_time.c:100-146 | the start of every year and whether it is a leap year, on both paths |
| `Calendar.TmToSecs` | deps/libc_time.c:148-169 | the instant that the fields denote, also with months outside the year and other fields out of range |
| `Calendar.SecsRoundTrip` | deps/libc_time.c:14-169 | every accepted instant survives the conversion to fields and back |
| `Calendar.FieldsRoundTrip` | deps/libc_time.c:14-169 | valid fields with an int year survive the conversion to seconds and back |
| `Base64Spec.EncodedLength` | deps/base64.c:23-61 | the encoding has four characters for every three octets begun |
| `Base64Spec.BlanksAreIgnored` | deps/base64.c:93-101 | a blank may stand anywhere in the text |
| `Base64Spec.DecodeConcat` | deps/base64.c:93-125 | decoding takes a concatenation of valid texts to the concatenation of their octets |
| `Base64Spec.DecodeEncoded` | deps/base64.c:35-141 | decoding undoes encoding, wherever blanks were put into the text since |
| `Base64Spec.RoundTrip` | deps/base64.c:35-141 | decoding undoes encoding |
| `Base64Spec.EncodeDecoded` | deps/base64.c:35-141 | encoding undoes decoding on exactly the canonical texts |
| `Base64Spec.UnpaddedIsRefused` | deps/base64.c:127-129 | a text whose length without blanks is no multiple of four is refused |
| `Base64Spec.UnpaddedIsReadIff` | deps/base64.c:104-129 | the encoding without its padding is read back exactly if the number of octets is a multiple of three, and refused otherwise |
| `Base64Spec.SlackIsDropped` | deps/base64.c:104-124 | the bits that padding drops are not looked at |
| `Base64.EncodeInto` | deps/base64.c:35-61 | the loop writes exactly `Encode` of the input and nothing behind it; which letter stands where is `Base64Alphabet.EncodedAt` |
| `Base64.Lookup` | deps/base64.c:63-72 | the table gives what `KindOf` says of a character; that these are the places in the alphabet are `Base64Alphabet.CodesAre` and `Base64Alphabet.AlphabetIsTaken` |
| `Base64Alphabet.LettersAre` | deps/base64.c:13-14 | the letters are A to Z, a to z, 0 to 9, plus and slash, in this order |
| `Base64Alphabet.CodesAre` | deps/base64.c:63-72 | every character is taken for its place in the alphabet, also minus and underscore, or is padding, a blank or foreign |
| `Base64Alphabet.AlphabetIsTaken` | deps/base64.c:63-72 | every letter of the alphabet has its place for value |
| `Base64Alphabet.EncodedAt` | deps/base64.c:35-61 | each character of the encoding is the letter of its six bits of the input, or padding behind the end |
| `Base64.TakeCharacter` | deps/base64.c:93-112 | a character is refused exactly if the block can no longer be completed |
| `Base64.WriteOctets` | deps/base64.c:114-124 | the octets of a block, without those that were padding |
| `Base64.PadsAreFew` | deps/base64.c:115-117 | the test for more than two padding characters never holds |
| `Base64.Unbase64` | deps/base64.c:74-141 | the loop returns the octets that the text decodes to, or the error exactly if it does not decode; it never writes outside its buffer |
| `NumeralsSpec.TextsAreShort` | deps/itoa.c:42-99 | no text is longer than 20 characters, and 16 in base sixteen |
| `NumeralsSpec.HexDigits` | deps/parse_num.c:37-47 | which characters the hexadecimal reader takes |
| `NumeralLiterals.DecimalIsWritten` | deps/itoa.c:42-67 | a decimal text is the numeral with the digits 0123456789 |
| `NumeralLiterals.HexIsWritten` | deps/itoa.c:42-67 | a text in base sixteen is the numeral with the digits 0123456789ABCDEF |
| `NumeralLiterals.DigitsAreRead` | deps/parse_num.c:37-62 | the readers take a digit for its place among these, in both cases, and which other characters |
| `NumeralsSpec.FittingNeverDrops` | deps/parse_num.c:29-68 | a number that 64 bits can hold never trips the overflow test |
| `NumeralsSpec.RightIffFits` | deps/parse_num.c:29-68 | reading is right exactly if 64 bits can hold the number |
| `NumeralsSpec.CaughtIff` | deps/parse_num.c:46-65 | which overflows the test catches at the digit that overflows |
| `NumeralsSpec.DecimalRoundTrip` | deps/parse_num.c:29-68 | behind a decimal text the reader returns its number and length, whatever follows, exactly if it does not look hexadecimal |
| `NumeralsSpec.HexRoundTrip` | deps/parse_num.c:30-54 | 0x and the text in base sixteen read as the number |
| `NumeralsSpec.SignedRoundTrip` | deps/parse_num.c:70-104 | every 64-bit integer, the least one included, reads back from its text |
| `NumeralsSpec.DigitBehind` | deps/parse_num.c:55-68 | what is read from a number that fits and one more digit |
| `NumeralsSpec.OverflowIsMissed` | deps/parse_num.c:55-68 | 30000000000000000000 is read as another number |
| `Numerals.Reverse` | deps/itoa.c:34-39 | the swaps turn the range round and leave the rest |
| `Numerals.PutDigits` | deps/itoa.c:42-60 | the digits, least significant first, and a zero for zero |
| `Numerals.ItoaUnsigned` | deps/itoa.c:42-67 | the numeral in the base, terminated, with its length |
| `Numerals.ItoaSigned` | deps/itoa.c:70-99 | the decimal numeral with its sign, terminated, also for the least integer |
| `Numerals.ReadHex` | deps/parse_num.c:34-54 | the hexadecimal loop stops behind the last digit with the number modulo 2^64, or where the overflow test trips |
| `Numerals.ReadDecimal` | deps/parse_num.c:56-67 | the same for the decimal loop |
| `Numerals.ParseUInt64` | deps/parse_num.c:29-68 | characters read and number stored, in all cases |
| `Numerals.ParseInt64` | deps/parse_num.c:70-104 | the same with a sign and the limits of 64-bit integers |

## Left out

- Zip tree: `ZIP_MIN`, `ZIP_MAX`, `ZIP_ITER` and the validation function, which would only add easy members. The four
  move helpers are one loop with a direction.
- Node store: reference kinds, node contents, random numbers (a sequence of candidates), allocation failure, and the
  subtype bits of reference types; that the search for a free id ends is assumed by requiring a free candidate.
- Double printer: the floating-point product in the first guess is a rational one; the search is proved to end from
  any index. That the digits are the shortest is not claimed, and Grisu2 does not promise it.
- Secure channel: cryptography, certificates, token renewal and its clock, HEL/ACK/ERR processing and the encoding of
  message bodies. Security is a context with abstract, deterministic checks; the theorems about delivery assume that
  the context does not change in between, which policy None meets.
- ChannelSpec.NothingLost: counts of bytes and chunks are unbounded; their 64-bit wrap-around is not modelled.
- Chunked decoder: the request and response header parsers, which are long case splits over intrinsics. Counters of
  octets read are unbounded.
- XML parser: the counters of lines and octets, which nothing reads, and `yxml_symlen`. The written documents are those
  of this parser, not of the XML standard: like the code they allow repeated attributes, any octet above 127 in names,
  several document types, and blanks before the declaration.
- JSON5 tokenizer: the restart with a virtual root object after an error outside every container, stopping early,
  `cj5_find` and the functions that read values out of tokens. Positions are unbounded.
- Cj5.Tokenizer.Parse: models the first pass; where it reports an error outside every container the code restarts.
- Calendar.TmToSecs: the subtraction in the day of the month is unbounded, so its overflow for the least int is not
  modelled.
- Base64: the wrapper that allocates, with its size overflow test.
- Numerals.ParseInt64: requires a character, because the code reads the first one without looking at the size.
- Numerals.ItoaUnsigned: bases zero and one, for which the code divides by zero or does not end.
- The number formatting functions, event loops, networking, the server and the client.
