# Drey in Dafny

Drey is a byte-code machine on a hand-written heap. This project models its state-keeping layers and
proves that each keeps to its simple specification over every run:

* `Commons.dfy`: what several modules share.
* `FixedPool.dfy`, `RefStack.dfy`: the pool of equal cells with its free list inside the cells, and the
  operand stack that relies on the order of that list.
* `Tiling.dfy`, `DynLayout.dfy`, `DynPool.dfy`: the first-fit allocator in a region of bytes. The bytes are
  proved to encode a tiling of the region and an acyclic, unordered free list after every operation, with the
  exact exceptions; `DynSpoilt.dfy` and `DynOverrun.dfy` are about what is left after those.
* `ArrayLayout.dfy`, `RefArray.dfy`: growable arrays in blocks of that allocator.
* `MemRef.dfy`, `Graph.dfy`, `Heap.dfy`: references, the object graph of the eleven reference types, and
  mark and sweep over it.
* `Keys.dfy`, `HashSpec.dfy`, `HashRuns.dfy`, `ChainStore.dfy`, `RefHash.dfy`: the chained hash table, first as
  a function on tables against a map over whole runs, then as cells that are relinked in place;
  `HashLaws.dfy` is about buckets, order and size, `HashGraph.dfy` shows that the collector can scan it.
* `JsonSpec.dfy`, `JsonRoundTrip.dfy`, `JsonLaws.dfy`, `Json.dfy`: the JSON printer and parser.
* `VmSpec.dfy`, `Vm.dfy`: the control part of the interpreter as a state machine and as the machine that
  updates itself; `VmRuns.dfy`, `VmUndo.dfy`, `VmReissue.dfy`, `VmSafety.dfy`, `VmScopes.dfy`, `VmCalls.dfy` and
  `VmSchedule.dfy` prove its properties over all runs, `VmLaws.dfy` says what single instructions and answers
  leave of the machine, and `VmExamples.dfy` has runs that meet the exceptions.

Where the C code updates state in place there is a class whose methods are proved against functions on
the old state; the properties are proved about those functions. Where the code departs from its evident
intent it is modelled as it stands, with a lemma that says for which inputs, exactly, it does what it
should: growing the dynamic pool (`DynPool.Resize`, `DynPool.Realloc`), the size test of reallocation
(`DoublingTooCloseIff`, `RefArray.Append`), removal from a hash table (`RunRefinesMapIffSafe`,
`RemoveLosesChain`), a number at the end of a JSON text and the unterminated number buffer (`RoundTrip`,
`StaleDigitRead`), the undo key of a program (`UndoLosesIff`, `OwnUndoLosesContext`), and the wake-up of the root
fiber (`LastEndWakesRoot`, `UndosReissueIff`, `WokenWithoutAnswer`).

The system's answer to a request for memory, the string hash, `atoi`, old stack contents, the decoded program
and the messages of clients are parameters. `dafny verify dfyconfig.toml` checks the whole project.

## Model

| member | source | states |
|---|---|---|
| FixedPools.FixedPool.constructor | memory/fixed_pool.c:63-88 | A pool of at least one element starts with every element free, in order, and its contents zeroed. |
| FixedPools.FixedPool.Double | memory/fixed_pool.c:18-47 | Doubling keeps every old element at its offset with its contents; the zeroed new half is the free list. |
| FixedPools.FixedPool.Alloc | memory/fixed_pool.c:15-52 | Allocation returns the head of the free list, never a live element; exactly that element becomes live, and nothing that was live changes, also when the pool doubles. |
| FixedPools.FixedPool.Free | memory/fixed_pool.c:56-61 | A freed element becomes the head of an acyclic free list, so it is the next to be allocated; every other element is untouched. |
| RefStacks.RefStack.Push | datastructs/refstack.c:51-62 | Push appends a value, through a doubling of the pool too; it relies on the free list being exactly n, n+1, ..., count-1. |
| RefStacks.RefStack.Pop | datastructs/refstack.c:29-49 | Pop returns and removes the last value although it moves the head down by one element blindly, because the free list stays consecutive. |
| RefStacks.RefStack.Peek | datastructs/refstack.c:17-21 | Peek returns the last value. |
| RefStacks.RefStack.Clone | datastructs/refstack.c:71-91 | A clone holds the same values in elements of its own. |
| RefStacks.CloneIsIndependent | datastructs/refstack.c:29-91 | Any mixture of pushes and pops on a stack and on its clone leaves each side with the values that its own operations give. |
| Tilings.TilingPartitions | memory/dynamic_pool.c:207-219 | In a tiled region every byte lies in exactly one block, live or free. |
| Tilings.MergeTiling | memory/dynamic_pool.c:55-61 | Adding a block to the one right before it keeps the region tiled. |
| Tilings.SplitTiling | memory/dynamic_pool.c:91-173 | Cutting a block in two keeps the region tiled. |
| Tilings.ShiftTiling | memory/dynamic_pool.c:333-366 | Moving the boundary between two neighbouring blocks keeps the region tiled. |
| DynPools.DynPool.constructor | memory/dynamic_pool.c:207-219 | A new pool is one free block that covers the region. |
| DynPools.DynPool.FindAdjacent | memory/dynamic_pool.c:19-41 | The walk stops at the first listed block at or behind the given one, or at the last of the list, whichever comes first; the list is not assumed to be sorted. |
| DynPools.DynPool.Free | memory/dynamic_pool.c:43-88 | Freeing a live block adds it to the listed block that ends where it starts, or puts it on the list where the walk stops, and changes no other block and no other place of the list; the bytes stay an exact encoding of a tiling with an acyclic free list, and every other live block keeps offset, size and payload. |
| DynPools.DynPool.Search | memory/dynamic_pool.c:91-120 | The search returns the first block of the list that is big enough, or nothing if and only if no block is. |
| DynPools.DynPool.AllocInternal | memory/dynamic_pool.c:91-173 | Allocation hands out the first listed block with room: exactly request and header of it, the rest taking its place on the list, unless no more than 12 bytes would be left, which then stay with the block; every other block and place of the list is as it was, live blocks keep their payload, and the region stays tiled. It fails only when no free block fits. |
| DynPools.DynPool.Resize | memory/dynamic_pool.c:221-298 | As coded: growing the pool always gives a list with a block that fits, and the bytes still describe the live blocks in a tiled region if and only if the last block of the free list ends where the region ended (both directions). Then that block has grown by all the new bytes and nothing else changed; otherwise a header for the new bytes lies over the end of the old region and the old list leads to it. |
| DynPools.DynPool.GrowthDoubles | memory/dynamic_pool.c:226-240 | The total at least doubles; it exactly doubles unless the request is larger, and then twice the request is added. |
| DynLayouts.MisplacedBlockUntileable | memory/dynamic_pool.c:254-285 | When the new block is put one word before the end of the data and becomes the list head, no tiling with the same live blocks fits the bytes, whatever they are otherwise. |
| DynLayouts.FullRegionUntileable | memory/dynamic_pool.c:248-259 | A concrete case: a region of eight bytes that is one live block cannot be grown. |
| DynLayouts.MisplacedBlockSpoils | memory/dynamic_pool.c:254-285 | Nor does any tiling fit once the misplaced block has been handed out. |
| DynPools.DynPool.Alloc | memory/dynamic_pool.c:175-205 | Allocation returns 0xFFFFFFFF if and only if no free block fits and the system refuses to enlarge the pool, so the second search after a resize never fails. The live blocks and the new one tile the region if and only if there was room or the last free block ended the region; then the new block is cut, as AllocInternal says, off the first block with room among the old ones or the enlarged last one, and all other live blocks keep offset, size and payload. Otherwise they keep their bytes up to the misplaced block. |
| DynPools.DynPool.AllocAll | memory/dynamic_pool.c:91-205 | Any number of requests that leave more than 12 bytes of a single free block get consecutive blocks of exactly their size, in order and without the system. |
| DynPools.DynPool.AllocSet | memory/dynamic_pool.c:416-434 | The same with a payload of zeroes, whether or not the pool survives. |
| DynPools.DynPool.FindBehind | memory/dynamic_pool.c:323-326 | The in-place test succeeds if and only if the block the walk stops at starts where the given block ends and has room for the rest. |
| DynPools.DynPool.Realloc | memory/dynamic_pool.c:302-402 | The reallocated block and the other live blocks tile the region if and only if the block stays in place or its new block was accommodated (both directions). Then the old payload is a prefix of the new one and every other live block keeps offset, size and payload; the new payload fits if and only if not newSize < oldSize < newSize + 4, where oldSize includes the header. Otherwise the freed block heads a list that leads nowhere but behind the misplaced block, and payloads are kept up to that. The block stays in place exactly when it can be extended or is big enough by the code's test; in the latter case nothing at all changes. |
| DynPools.DynPool.GrowInPlace | memory/dynamic_pool.c:326-372 | Growing takes exactly what is missing from the free block behind, whose rest keeps its place on the list, or all of it when the rest is eight bytes at most. |
| DynPools.DynPool.Move | memory/dynamic_pool.c:373-400 | Moving allocates, copies the payload and frees the old block; there is a tiling afterwards if and only if the new block was accommodated. |
| DynSpoils.MovedUntileable | memory/dynamic_pool.c:373-400 | Freeing the old block does not make up for a misplaced new one: no reading of the bytes tiles the region with the other live blocks and the moved one. |
| RefArrays.RefArray.constructor | datastructs/refarray.c:7-21 | A new array has no elements and the given element size and capacity in its fields. It has a block of its own in a tiled region if and only if that could be accommodated; then every other block is as it was. |
| RefArrays.RefArray.Reallocate | datastructs/refarray.c:285-295 | The growth of ra_append keeps the array where it can be placed, and the doubled capacity has room if and only if the size of the old block was not too close to the request; a misplaced block still holds the count and the elements before the last word of the old region. |
| ArrayLayouts.DoublingTooCloseIff | datastructs/refarray.c:285-295 | For a block of exactly the array's size, doubling leaves too little room if and only if the elements take one to three bytes, as in a character array of capacity 1, 2 or 3. |
| ArrayLayouts.ExactBlockOverruns | datastructs/refarray.c:285-303 | In that case the append that follows writes behind the block, by at most three bytes. |
| DynOverruns.OverrunTileable | datastructs/refarray.c:297-299 | A payload that is written up to three bytes too far leaves the blocks tiling the region if and only if the bytes behind its block, the size of the next one, are what they were. |
| ArrayLayouts.WordsNeverTooClose | datastructs/refarray.c:285-295 | With elements and blocks of whole words the failing case never arises. |
| RefArrays.RefArray.Append | datastructs/refarray.c:272-304 | ra_append appends the element's bytes to the array's bytes, doubling the capacity exactly when the array is full, and leaves every other live block with its offset, size and payload, where CanAppend holds. Otherwise a doubling that is not too close leaves no tiling (both directions), and one that is too close leaves one if and only if the element does not change the bytes behind the block; the fields and, but for those lost in the last word, the elements are right in every case. |
| RefArrays.RefArray.AppendAll | datastructs/refarray.c:272-304 | Repeated ra_append refines appending to a sequence: after n appends the array holds its old bytes and those of the n elements in order, count and capacity follow, and every other live block is as it was. The run stops short only where the array is full and its block cannot be doubled: the pool could not place it or its size is too close. |
| ArrayLayouts.CapacityFollows | datastructs/refarray.c:285-295 | The capacity after any number of appends holds the elements, and if it grew it is less than twice what they need. |
| RefArrays.RefArray.Clone | datastructs/refarray.c:261-270 | A clone has the same fields and elements in a block of its own, and the original and every other block stay as they were, if and only if its block could be accommodated; otherwise there is no tiling, and both arrays lose the elements in the last word of the old region, if any. |
| Graphs.ClosedContainsReachable | memory/gc.c:69-207 | A set that is closed under references and contains the start contains everything reachable. |
| Graphs.FieldsAreHeld | memory/gc.c:77-207 | For every kind of object the scan visits what the object holds, all of it and nothing else. |
| Heaps.SpacesDiffer | memory/manager.c:111-212 | Objects of different types come from different pools, except that strings and arrays share one. |
| Heaps.Heap.constructor | drey_main.c:23-33 | Empty pools are an empty heap: every reference cell is free and has type 0. |
| Heaps.Heap.Deref | memory/manager.c:172-212 | A reference that resolves leads to the object it stands for, of the type it says. |
| Heaps.Heap.Mark | memory/gc.c:210-223 | Marking flags exactly the given cell and says whether it was the first time; values are never flagged. |
| Heaps.Heap.MallocRef | memory/manager.c:27-40 | A new reference uses a cell that was free, stands for exactly the new object, and starts with a clear flag. |
| Heaps.Heap.ScanGraph | memory/gc.c:69-207 | Scanning terminates on every cyclic graph (the number of unmarked cells decreases), marks everything reachable from the given reference along the edges of the eleven reference types, and nothing else that was unmarked. |
| Heaps.Heap.ScanHash | memory/gc.c:77-118 | The hash case marks all entries although the bucket array is not scanned as an array and the walk stops once as many entries were seen as the hash has. |
| Heaps.Heap.MarkRoots | memory/gc.c:225-262 | After the roots are scanned, marked cells have marked successors and were reached from the roots. |
| Heaps.MarkedIsReachable | memory/gc.c:69-262 | Mark exactness: a cell is marked if and only if it is reachable from the roots. |
| Heaps.Heap.FreeRef | memory/manager.c:111-170 | Freeing returns exactly one target cell to its pool and the reference cell to the reference pool; the rest of the heap stands for the same objects. |
| Heaps.Heap.Sweep | memory/gc.c:264-288 | One pass over all reference cells frees exactly the unmarked ones in use and clears every flag. |
| Heaps.Heap.Collect | memory/gc.c:225-288 | Collection leaves exactly the objects to which a root leads through what objects hold, with unchanged fields, and everything that they hold: each stack value at and below its head, all elements of arrays, closures, and every other field, kind by kind; the roots too lead to what they led to. The heap invariant (type 0 exactly when free, every target owned by one reference) holds again, all flags are clear. |
| Heaps.CollectedIsHeld | memory/gc.c:69-288 | The same as a law about graphs, stated without the list of fields that the scan visits. |
| Heaps.PathSurvives | memory/gc.c:225-288 | Every path of references from the roots leads to the same objects after a collection: a collection is invisible to the machine. |
| Heaps.Heap.CollectTwice | memory/gc.c:225-288 | A second collection with the same roots frees nothing: it leaves exactly the objects that the first one left. |
| Heaps.CollectKeepsRoots | memory/gc.c:225-262 | The roots resolve after a collection as before, so that the next one can start. |
| Heaps.CollectKeepsScannable | memory/gc.c:69-288 | After a collection every reference resolves, chains end and hashes count their entries, as the next scan requires. |
| Keys.EqualIsSameKey | memory/manager.c:285-399 | On 32-bit integer and string keys memref_equal decides whether two keys mean the same, so it is an equivalence. |
| Keys.EqualKeysHashEqually | memory/manager.c:510-531 | Equal keys have equal hashes, whatever the string hash computes. |
| HashSpec.LookupIsMap | datastructs/refhash.c:52-85 | Looking a key up in its chain agrees with the map the table stands for. |
| HashSpec.SetIsMapUpdate | datastructs/refhash.c:520-601 | Setting a key updates the map at that key and nowhere else. |
| HashSpec.RemoveIsMapRemoveIffSafe | datastructs/refhash.c:407-466 | As coded, removing a key takes exactly that key out of the map if and only if the key is absent, not the head of its chain, or alone in it. |
| HashSpec.CountIsMapSize | datastructs/refhash.c:236-240 | The number of entries is the size of the map. |
| HashSpec.RehashKeepsMap | datastructs/refhash.c:469-517 | Redistributing the entries keeps the map, with every entry in the bucket of its hash and no key twice. |
| HashSpec.RehashConserves | datastructs/refhash.c:469-517 | Redistributing loses and duplicates no entry. |
| HashRuns.GetNextPrime | datastructs/refhash.c:16-29 | The first prime of the table above the number, the largest one if there is none. |
| HashLaws.NextIsSmallest | datastructs/refhash.c:16-29 | It is the smallest entry of the table that exceeds the number; the entries increase. |
| HashLaws.BucketOfKey | datastructs/refhash.c:52-85 | In a sound table the bucket of a key is its hash modulo the number of buckets: the integer itself as an unsigned number, or the string hash. |
| HashLaws.SetPlaces | datastructs/refhash.c:520-601 | hash_set keeps an entry with the key in its place and puts a new one first in the chain of its bucket; no other entry moves. |
| HashLaws.SetGrows | datastructs/refhash.c:588-598 | The number of buckets changes exactly when a new key makes more entries than buckets, and then it is the next of the table. |
| HashLaws.ResizeReverses | datastructs/refhash.c:469-517 | A resize gives each new bucket its entries in the opposite of the order in which the old chains had them. |
| HashLaws.RemovePlaces | datastructs/refhash.c:407-466 | hash_remove takes out one entry, or the whole chain when it is the head of a longer one; every other entry keeps its place. |
| HashRuns.SetRefinesMap | datastructs/refhash.c:520-601 | hash_set keeps a table sound - hashed right, keys distinct, kvp_count the number of entries, and no more entries than buckets while there are fewer than 7199369 - and updates the map. |
| HashRuns.RemoveRefinesMapIffSafe | datastructs/refhash.c:407-466 | hash_remove keeps a table sound and removes exactly the key if and only if it does not hit the head of a longer chain. |
| HashRuns.RunRefinesMapIffSafe | datastructs/refhash.c:407-601 | Over any run of hash_set, with its resizes, and hash_remove, the table agrees with a simple map after every step if and only if no removal of the run hits the head of a longer chain. |
| HashRuns.SafeRunObservations | datastructs/refhash.c:52-601 | After every step of such a run lookups answer from the simple map, kvp_count is its size, and it is at most the number of buckets. |
| HashRuns.RunCounts | datastructs/refhash.c:407-601 | Over any run, unsafe removals included, entries stay in the bucket of their hash with distinct keys, and kvp_count is never below the number of entries; it is the number of entries if and only if no removal hit the head of a longer chain. |
| HashGraphs.TableIsScannable | memory/gc.c:77-118 | A table that the operations keep valid has the shape on which the collector's scan of it relies if and only if kvp_count is at least the number of its entries, as RunCounts shows of every run. |
| HashGraphs.TableHasLengths | memory/gc.c:88-107 | The chains of such a table end, whatever else is in the graph. |
| HashRuns.RemoveLosesChain | datastructs/refhash.c:446-464 | A concrete run of two hash_set and one hash_remove in three buckets after which the table and the simple map differ. |
| RefHashes.RefHash.constructor | datastructs/refhash.c:32-50 | A new table is empty, sound and has a number of buckets from the prime table. |
| RefHashes.RefHash.TryGet | datastructs/refhash.c:52-85 | hash_try_get on the linked cells finds the value of the key if and only if the table has the key. |
| RefHashes.RefHash.Contains | datastructs/refhash.c:242-271 | hash_contains says whether the table has the key. |
| RefHashes.RefHash.Resize | datastructs/refhash.c:469-517 | Relinking the cells in place, by rewriting their next fields, leaves every cell in exactly one acyclic chain of the new buckets with its key and value, and the table is the redistributed old one. |
| RefHashes.RefHash.Set | datastructs/refhash.c:520-601 | hash_set on the linked cells does to the table of chains what the specification of the run theorem says. |
| RefHashes.RefHash.Remove | datastructs/refhash.c:407-466 | hash_remove, with its test of next as coded, does to the table of chains what the specification of the run theorem says. |
| RefHashes.RefHash.Enumerate | datastructs/refhash.c:294-404 | The key, value and cell enumerations list every entry exactly once, in bucket and chain order, although they may stop early at kvp_count; also for a table that has lost entries. |
| Jsons.Parser.Value | datastructs/json.c:36-197 | On every input the parser terminates; pointer and offset advance together, never back and never more than two past the limit; the result is that of the specification. |
| Jsons.Parser.SkipSpace | datastructs/json.c:11-29 | skip_ws stops at the first character that is no white space, or fails beyond the limit. |
| Jsons.Parser.Array | datastructs/json.c:42-64 | The array loop, which counts a failed item as null and accepts a trailing comma, ends: every turn consumes a character or returns. |
| Jsons.Parser.Hash | datastructs/json.c:67-106 | The object loop, likewise. |
| Jsons.Parser.Number | datastructs/json.c:129-154 | A run of digits of at most eleven that ends within the limit is copied without a terminator into a buffer that holds old stack contents, and what atoi makes of that is the number. |
| Jsons.Printer.Value | datastructs/json.c:205-305 | The printer appends exactly the text of the value, with a comma after the last entry of a hash whose kvp_count exceeds its entries. |
| JsonRoundTrip.RoundTrip | datastructs/json.c:36-305 | For every finite value built from non-negative 32-bit integers, strings without a double quote, arrays, and hashes with string keys, also those that have lost entries, parsing its printed text stops right after it, whatever text follows that does not begin with a digit, and gives its meaning back if the stack holds no digit behind each number (behind a zero: only zeros); with distinct keys and no overflow, only if. A number that ends at the limit is refused. |
| JsonRoundTrip.CopiedReads | datastructs/json.c:141-143 | atoi reads a copied number back if and only if no digit follows it on the stack, or it is zero and only zeros follow (the only-if where the longer number fits an int). |
| JsonRoundTrip.StaleDigitRead | datastructs/json.c:141-143 | When the buffer still holds the first number, [12,3] reads as 12 and 32. |
| Jsons.PrintAndParse | datastructs/json.c:199-312 | Printing and then parsing, with the limit at the end of the text or one further, gives the value back under the same condition on the stack; a number that ends at the limit never. |
| JsonSpec.FieldsIgnoreOrder | datastructs/json.c:215-268 | With distinct keys the map a printed hash stands for does not depend on the order of its entries. |
| JsonRoundTrip.BlankArrayHoldsNull | datastructs/json.c:42-64 | Brackets with any amount of white space between them, but some, read as an array of one null, unlike section 5 of RFC 8259; without any they read as an empty array. |
| JsonLaws.TrueIsOne | datastructs/json.c:146-165 | The word true reads as 1. |
| JsonLaws.FalseIsZero | datastructs/json.c:167-187 | The word false reads as 0. |
| JsonLaws.IntKeysReadAsStrings | datastructs/json.c:234-244 | A value with integer keys prints as the one with the strings of their digits, and that is what is read, under the condition of the round trip. |
| JsonLaws.SpaceIsSkipped | datastructs/json.c:11-29 | Blanks, tabs and line ends in front of a value make no difference. |
| JsonLaws.TrailingComma | datastructs/json.c:42-64 | A comma in front of the closing bracket adds no item. |
| JsonLaws.NegativeRefused | datastructs/json.c:208-213 | A negative integer prints as a minus sign and its digits, which the parser refuses. |
| JsonLaws.LongNumberRefused | datastructs/json.c:129-154 | A run of twelve digits or more is refused. |
| JsonLaws.OtherStartRefused | datastructs/json.c:36-197 | So is a text that starts with any other character. |
| JsonLaws.MisspeltRefused | datastructs/json.c:146-187 | A text that starts with t or f and is neither word is refused. |
| JsonLaws.UnclosedRefused | datastructs/json.c:108-123 | A string that is not closed before the limit is refused. |
| JsonLaws.ItemsNeedSeparators | datastructs/json.c:42-64 | An array whose item is followed by neither a comma nor the bracket is refused. |
| JsonLaws.MembersNeedSeparators | datastructs/json.c:67-106 | So is a hash whose value is followed by neither a comma nor the brace. |
| JsonLaws.KeysAreStrings | datastructs/json.c:67-106 | So is a hash with a key that is not a string or has no colon behind it. |
| Vms.Machine.constructor | vm/vm.c:167-213 | init_vm leaves the root fiber with one context that has one scope. |
| Vms.Machine.Step | vm/vm.c:690-2061 | One step of the machine in place does what the specification says for each control instruction - scopes, variables, calls, suspend, cut, fork, join, raw input - and for any instruction that works on the evaluation stack, arrays and the pc alone: what is fetched, how far the pc moves, what changes. |
| Vms.Machine.Return | vm/vm.c:1852-1905 | The walk of ret back along the scopes ends and finds the last scope with a return address. |
| Vms.Machine.SuspendFiber | vm/vm.c:1746-1794 | suspend clones the context, takes client and request from the clone's stack and sends the choices. |
| VmSchedule.ForkStarts | vm/vm.c:1949-1988 | fork starts a fiber with a new id, a stack that holds only the argument and scopes that nothing else has; it sees exactly the variables the function closes over, and a ret at its own level ends it. The root goes on without the operands, and no other fiber changes. |
| Vms.Machine.HandleResponse | vm/vm.c:292-350 | An answer goes to the first fiber that awaits a choice from the client; undo drops two contexts and steps back. |
| Vms.Machine.HandleRaw | vm/vm.c:254-290 | A raw answer goes to the first fiber that awaits one from the client. |
| VmLaws.AnswerGoesOnTop | vm/vm.c:292-350 | A choice other than undo goes on top of the stack of the fiber that waits for it, which can run then; everything else is as it was. |
| VmLaws.RawGoesOnTop | vm/vm.c:254-290 | So does raw data. |
| VmLaws.UndoGoesBack | vm/vm.c:314-336 | Undo removes two contexts and steps back, and changes nothing else. |
| VmLaws.OthersIgnored | vm/vm.c:254-350 | A message that no fiber waits for, or from somebody else, changes nothing. |
| VmLaws.UnknownChoiceIgnored | vm/vm.c:292-350 | Nor does a choice that was not offered. |
| VmLaws.SuspendAsks | vm/vm.c:1746-1794 | suspend adds a context without the two operands and sends the client the header and the choices: every key of the request with the text behind its last occurrence, and undo when there is a context to go back to. |
| VmLaws.SuspendNeedsRequest | vm/vm.c:1746-1794 | suspend dies if and only if there is no client on top of an array of odd length. |
| VmLaws.SuspendThenAnswer | vm/vm.c:292-1794 | A request and its answer put the choice in the place of the two operands. |
| VmLaws.RawIsAwaited | vm/vm.c:1929-1947 | getraw takes the client off the stack and waits for its data. |
| VmLaws.RetGoesBack | vm/vm.c:1852-1905 | ret cuts the scope array at the last return address and goes on there with the evaluation stack as it is, or ends the fiber, the others keeping their order. |
| VmLaws.RetEndsProgram | vm/vm.c:1856-1868 | ret with a single scope ends the program. |
| VmLaws.LambdaCloses | vm/vm.c:1824-1830 | lambda puts a function on the stack that closes over the current scope, and changes nothing else. |
| VmLaws.ApplyRuns | vm/vm.c:1832-1850 | apply runs the function in a new scope with only the argument added to the stack, and changes nothing else. |
| VmLaws.CutKeepsCurrent | vm/vm.c:1796-1804 | cut leaves the current context as the only one and changes nothing else. |
| VmLaws.ForkAddsFiber | vm/vm.c:1949-1988 | What fork adds to the whole machine. |
| VmLaws.JoinWaits | vm/vm.c:1991-1998 | join makes the root wait and nothing else. |
| Vms.Machine.Load | vm/vm.c:453-475 | load_var finds the value that the owner of the key binds, the first scope of the chain that has it (OwnerIsInnermost), or fails if there is none. |
| Vms.Machine.Replace | vm/vm.c:477-491 | replace_var changes the binding of the owner of the key and no other, or changes nothing if there is none. |
| Vms.Machine.Round | vm/vm.c:2064-2119 | A round is a run that consists of turns. In a complete round every fiber of its start has exactly one turn, in index order although fibers are removed in mid-loop, then perhaps newer ones; a fiber that can run makes at least one step, the others none, and it stops where it waits, ends or meets a breakpoint and not before. A round is incomplete only when the budget of steps is spent or the next step of the fiber in front dies or ends the game. |
| Vms.Machine.Turn | vm/vm.c:2070-2117 | A turn goes on until the fiber waits, ends or meets a breakpoint, and passes none after its first step; it is broken off only by the budget, a crash or the end of the game. |
| VmRuns.SeparateStep | vm/vm.c:690-2061 | Every event keeps each context's evaluation stack and scope array its own, fibers with a context, and ids distinct. |
| VmRuns.ViewStep | vm/vm.c:292-350 | Execution, answers and the events of other fibers change at most the top context of a fiber; suspend adds one, undo drops two, cut leaves one. |
| VmUndo.SavedBySuspend | vm/vm.c:1746-1752 | In every run from single contexts, every saved context was saved by a suspend of its fiber, and the fiber has not gone back to it since. |
| VmUndo.UndoIsRollback | vm/vm.c:314-336 | In every such run, accepting an undo leaves the fiber's contexts - ids, pcs, stack contents, scope references - exactly as they were just before the suspend that precedes the one being answered, with the pc on that instruction. |
| VmReissue.UndosReissueIff | vm/vm.c:314-336 | After k requests, j undos leave the fiber with the contexts of request k-j, awaiting its answer from the same client or about to send it again, at every moment and whatever other fibers do, if and only if the fiber is never made to go on without an answer because the last other fiber ended. |
| VmExamples.WokenWithoutAnswer | vm/vm.c:1876-1893 | A concrete run from the initial state: the root forks, asks the player, and goes on without an answer when the fork returns. |
| VmReissue.SavedAreOpenRequests | vm/vm.c:1746-1794 | The saved contexts of a fiber are exactly its open requests: one step past their suspends with the operands still on the stack. |
| VmSafety.UndoOffered | vm/vm.c:1767-1774 | Undo is among the choices if and only if there are at least three contexts or the request uses the key itself. |
| VmSafety.UndoLosesIff | vm/vm.c:314-336 | Answering a suspend with an undo loses the last context of the fiber if and only if it had nothing saved and the program itself put the undo key into the request. |
| VmExamples.OwnUndoLosesContext | vm/vm.c:314-336 | A concrete program whose first request offers the undo key: the player who takes it leaves the fiber without a context. |
| VmSafety.RunIsSafe | vm/vm.c:292-350 | Over every run of a program that does not use the undo key itself, every fiber keeps a context and no answer loses one. |
| VmSafety.NothingBeforeCut | vm/vm.c:1796-1804 | After a cut the only context from before it that the fiber ever has again is the one that was current. |
| VmScopes.WellScopedStep | vm/vm.c:112-121 | Every event keeps each scope's closure null or an older scope. |
| VmScopes.ChainEnds | vm/vm.c:453-491 | The chain of closures reaches null through ever older scopes. |
| VmScopes.OwnerIsInnermost | vm/vm.c:453-491 | The scope that load_var and replace_var act on is the first of the chain that binds the key. |
| VmScopes.ReplaceThenLoad | vm/vm.c:453-491 | After a replace, a load from any scope sees the new value if and only if its innermost binding is the replaced one; every other load is as before. |
| VmScopes.NewScopeKeepsLoads | vm/vm.c:1809-1817 | A new scope does not change what the others see. |
| VmLaws.LoadGoesOnTop | vm/vm.c:777-796 | ldvar puts the value of the innermost binding on top of the stack and changes nothing else, and dies if and only if there is none. |
| VmLaws.StoreBinds | vm/vm.c:798-819 | stvar and p_stvar bind the key in the current scope to the value on top; stvar takes it off. |
| VmLaws.StoreThenLoad | vm/vm.c:777-808 | A stored value is loaded back and no other key is affected. |
| VmLaws.ReplaceBinds | vm/vm.c:820-832 | rvar replaces the value of the innermost binding by the one on top, which it takes off. |
| VmLaws.PushScopeKeepsLoads | vm/vm.c:1809-1817 | After pushscope every load from the new current scope gives what it gave from the old one, as does every other load. |
| VmLaws.PushThenPop | vm/vm.c:1809-1823 | pushscope and popscope leave the stack, the scope array and every load as they were. |
| VmLaws.LocalActs | vm/vm.c:690-2061 | An instruction on stack, arrays and address alone does what it does to them and nothing else. |
| VmLaws.OperandsNeeded | vm/vm.c:777-1990 | What each control instruction dies of for want of operands. |
| VmCalls.LambdaThenApply | vm/vm.c:1824-1850 | A lambda applied after its argument was pushed runs at its own address plus its operand, in a new scope that closes over the scope the lambda was made in and returns behind the apply, with only the argument added to the stack. |
| VmCalls.UnwindFrame | vm/vm.c:1871-1904 | The walk of ret stops at the scope of the innermost open call. |
| VmCalls.CallReturns | vm/vm.c:1809-1905 | In every run in which calls nest, the ret that matches an apply brings back the exact scope array of the caller and goes on just after the apply with the evaluation stack as the body left it, however many scopes are still pushed and calls were made in between, with other fibers interleaved and with suspends, cuts and undos within the call. |
| VmCalls.CallGivesValue | vm/vm.c:1832-1905 | A body that leaves a value in the place of its argument gives the caller its scope array and its old stack back, with the value in the place of function and argument. |
| VmCalls.EveryRetComesBack | vm/vm.c:1852-1905 | In every such run every ret comes back to an earlier apply of the fiber: to its scope array and to the address after it, with the evaluation stack untouched, also when an undo went back into a call that had returned. |
| VmSchedule.RootJoins | vm/vm.c:1991-1998 | Over every run in which join runs only while there are other fibers, the root stays first and never waits in join alone. |
| VmSchedule.LastEndWakesRoot | vm/vm.c:1876-1893 | Only other fibers end, and when the last of them ends the root can run - even if it was awaiting an answer. |
| VmSchedule.LoneJoinForever | vm/vm.c:1991-1998 | Over any run, a join executed by the only fiber is never undone by anything: the machine stays as it was. |
| VmSchedule.StartHolds | vm/vm.c:167-213 | init_vm leaves one fiber that can run, at address 0 with an empty stack and one empty scope, and nothing else; all these invariants hold of it. |

## Left out

- DynPools.DynPool.Resize: what the code does is kept, a block one word before the end of the data and the list head moved to it; the contract says exactly when the pool survives that, and it does not in the branches at lines 254-258 and 280-285.
- DynPools.DynPool.Free: there is no merge with the block behind, because the guard at line 80 of the source is never true; full coalescing is not claimed.
- DynPools.DynPool.Realloc: requires that the block stays or the pool has or gets the memory (MemoryFor). Otherwise the source copies to and frees through offset 0xFFFFFFFF; likewise for Move and the operations on arrays.
- RefArrays.RefArray.Append: requires a capacity of at least one, since doubling zero gives no room for any element, and that what is written too far in the too-close case still lies in the region.
- RefArrays.RefArray.AppendAll: the source does not look ahead; the run asks ForeseeAppend before each append, to say where appending stops being possible.
- DynPools.DynPool.AllocAll: repeats the allocation of the source, to say what a run of requests gets.
- HashRuns.PRIMES: that the entries of the table are prime is not proved; nothing relies on it.
- HashRuns.Remove: the test of next in hash_remove is modelled as it stands, opposite to its comment; the theorems say exactly which runs it spoils.
- Heaps.Heap.Collect: the roots that are flagged without being scanned (client ids, fiber and context arrays, the program) must hold no references, as they do in the machine; which objects the machine stores where is otherwise taken from the root list.
- Heaps.Heap.MallocRef: target cells are identified by pool and offset; the pools that hold them are the fixed and dynamic pools modelled elsewhere. Fields that the allocators leave unset are null.
- Keys.EqualIsSameKey: integers and strings only; comparison of booleans, lists, objects and arrays, and the order comparisons, are not modelled.
- RefHashes.RefHash.Set: new cells extend the sequence of cells; that cells of the pool are reused after collection is left to the collector.
- Jsons.Parser.Number: atoi is a parameter that is only known to be right up to 2147483647; what the stack holds behind the number buffer is a parameter for each number.
- RefArrays.RefArray.Clone: where the new block is misplaced, requires that the fields of the array do not lie in the last word of the region; they are overwritten otherwise and the source copies as many bytes as they then say.
- JsonRoundTrip.RoundTrip: hashes with integer keys print them as strings and so do not come back as integers, negative integers and quotes inside strings are not read back; these are outside the claim, and so is a kvp_count below the number of entries, which no run of the table operations gives (RunCounts).
- Vms.Machine.Step: instructions that touch only the evaluation stack, arrays and the pc are one generic instruction; opcodes on game objects, locations, properties and lists are not modelled one by one, nor is the decoding of bytes, apart from instruction sizes.
- Vms.Machine.ForkFiber: the order of the two id increments in one argument list is not defined by C; the fiber takes the first.
- Vms.Machine.Round: a budget of steps bounds a round, since a program may run for ever. After the game has ended the source goes on with a count from before and reads behind the new, empty array of fibers; that is left out. The collection every 1000 steps is invisible by the theorems on the collector and is left out.
- VmUndo.UndoIsRollback: the contents of scopes and arrays are shared between saved contexts and are not rolled back; only the references to them are.
- FixedPools.FixedPool.Alloc: offsets are counted in elements, not bytes; 32-bit overflow of pool sizes and a failing system allocation are not modelled.
- Raw addresses, stale pointers after a pool has moved, and the fix-up of owners: all access is by offset.
- ra_remove, ra_split_top, ra_split_bottom and ra_shuffle: they would add only easy members or are right only in special cases.
- hash_try_get_string_key, hash_get and hash_get_kvp: the first stops at the first string key of a chain, the others add nothing to hash_try_get.
- Sockets, threads, the debugger, printing, reading of program files, the handshake with players, and the stepping commands: input and output.
