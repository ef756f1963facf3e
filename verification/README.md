# Verified models of PROGRESS64

PROGRESS64 is a C library of scalable functions and data structures for multithreaded programs: ring buffers, reorder
buffers, multi-word compare-and-swap, lists, timers, safe memory reclamation, locks and hash tables. This project models
its protocols and data structures in Dafny and proves what they promise. The library's own explorer of interleavings
(`src/verify.c`) runs two threads for a bounded number of steps; the proofs here are for any number of threads and runs of
any length.

`dafny verify dfyconfig.toml` checks everything.

## How the code is modelled

**Protocols** are machines of atomic steps. A state holds the shared memory and, for each thread, a program counter and
the local variables; every atomic load, store, compare-and-swap and plain store to shared memory is one step, memory is
sequentially consistent, and a run is any interleaving of steps. Fields and locals called *history* in the modules record
what happened and have no influence on the steps. `Inv` is the inductive invariant of a machine, `StepKeepsInv` shows that
a step of any thread keeps it, `RunInv` carries it to every state of every run, and the properties follow from it. The
steps are those of the default build, which compiles assertions out; where an assertion is proved to hold or to fail, a
row says so.

What a call answers, in terms of the arguments it was given, is in the modules whose names end in `Calls`. There a call
is a stretch of a run: it begins in one step of its thread, which fixes the arguments, and lasts until the thread begins
another.

| module | code | machine |
|---|---|---|
| `BuckRing`, `BuckRingSafety`, `BuckRingCalls` | `src/p64_buckring.c` | two bucks travel through the ring as mark bits |
| `Mcas`, `McasAtomicity`, `McasCalls` | `src/p64_mcas.c` | multi-word compare-and-swap with helping, a call stack per thread |
| `LfRing`, `LfRingCalls` | `src/p64_lfring.c` | slot indexes define the real tail |
| `LinkList`, `LinkListCalls` | `src/p64_linklist.c` | removal marks, traversals, insertion and removal |
| `Timer`, `TimerCalls` | `src/p64_timer.c` | the `earliest` hint against setters, expirers and the clock |
| `Reorder`, `ReorderCalls` | `src/p64_reorder.c` | the change indicator |
| `BuckRob`, `BuckRobCalls` | `src/p64_buckrob.c` | one buck, in-order retirement |
| `PendWindow` | `src/p64_ringbuf.c` | non-blocking release through a counter and a mask |
| `SkipLock` | `src/p64_skiplock.c` | tickets, and the 96-bit mask of skipped ones |
| `RpLock` | `src/p64_rplock.c` | arrival and entry segments, node reuse |
| `Qsbr`, `QsbrCalls` | `src/p64_qsbr.c` | intervals read one at a time |
| `HazardPtr`, `HazardCalls` | `src/p64_hazardptr.c` | announce, validate, collect |
| `PfRwLock` | `src/p64_pfrwlock.c` | phases of readers, tickets of writers |
| `LaxOwner` | `src/p64_laxrob.c` | who owns the buffer, and the list in the idle word |

**Data structures** used by one thread are classes over arrays whose methods follow the C functions and are proved
against functions of the contents: `Mbtrie` (with `MbtrieSpec`, `LongestPrefix`, `TrieUpdate`) the multi-bit trie,
`TimerScan` the timer array, `HazardGc` a thread's retired objects, `LaxRob` the lax window, `Hopscotch` (with
`HopscotchSpec`), `Cuckoo` and `HashTable` the hash tables, `Reassemble` (with `Fragments`) the IP fragment table, and
`McasDescriptor` the sorting of a descriptor's entries. `RingIndex`, `Bits64`, `BitMask`, `Division`, `Sequences` and
`HashCells` hold what several of them need: ring positions and the swizzled slot index, words as numbers seen bit by
bit, and the cells of a cellar.

## What the proofs found

- A trie insertion of the element that is currently the default, under a longer prefix, changes no lookup
  (`LongestPrefix.DefaultInsertIgnored`); `LongestPrefix.InsertCorrectIff` says exactly when that is wrong and
  `LongestPrefix.InsertingDefaultFails` gives a history. Removing an element with no replacement while a default is set
  leaves a tagged null word, for which the vector lookup reports success where the single lookup returns the default
  (`Mbtrie.RemovalAgreesIff`, `Mbtrie.RemovalDisagrees`). Besides, it then takes away other elements' routes under the
  prefix that are not longer (`TrieUpdate.RemovalSparesIff`, `TrieUpdate.RemovalTakesOthers`). Freeing a trie leaves the
  default element with one reference (`Mbtrie.Trie.Free`).
- Initialisation of the pass-the-buck ring indexes with the swizzled index and no mask. It stays inside the ring exactly
  for rings of one slot or of at least 64 (`RingIndex.AllocInRange`).
- A lock-free ring dequeue may return nothing although the ring holds an element in every state of the call
  (`LfRing.MissingExample`): its scan stops short exactly when its own copy of the tail has fallen more than a lap behind
  (`LfRing.ScanMissesIff`). What it misses is not published yet: no element of an enqueue that has returned is missed
  (`LfRing.NothingMissesNothingPublished`).
- Inserting an empty list into the lax reorder buffer goes wrong in two ways. Into the idle buffer, it takes it and never
  lets go (`LaxOwner.StuckExample`, `LaxOwner.InsertingNothingBlocks`); into the busy buffer, it drops everything enqueued
  (`LaxOwner.LostExample`), and that is the only way to lose an element (`LaxOwner.LosesIff`, `LaxOwner.NothingLostIff`).
  When nobody inserts an empty list, nothing is lost or left behind (`LaxOwner.IdleHasEverything`).
- A last release after a deactivation makes a thread of the quiescent-state scheme active again
  (`Qsbr.QuiescentActivates`).
- Removing from the trie an element that it does not name makes that element's call-back, as the removal itself held the
  only reference (`Mbtrie.Trie.Remove`).
- Inserting an element into the hash table that is there already puts it into a second place when a head of its bucket is
  empty or the home chain does not lead to it (`HashTable.Twice`), and cuts off what is chained behind it
  (`HashTable.CutOff`). It is harmless, and reported, exactly when no head of its bucket is empty and it is the last
  element of its home chain (`HashTable.Table.Insert`, `HashTable.PresentInserted`).
- The reorder buffer asserts that a releaser that has become the retirer released nothing beyond the head. That holds
  exactly for releases of one element (`Reorder.RangeAssertionIff`); an in-order release of two violates it
  (`Reorder.RangeAssertionFails`). The other two assertions always hold (`Reorder.AssertionsHold`).
- When the 96 tickets behind the current one have all been skipped, a release of the skip lock counts the trailing zeros
  of zero, which is undefined, if the compiler complements the 96-bit field in the field's width, as GCC does for C
  (`SkipLock.ZeroComplementIff`, `SkipLock.UndefinedIff`). Only a count of 32 keeps the lock right
  (`SkipLock.UndefinedCount`); with 64 it passes over 32 tickets that nobody skipped (`SkipLock.FullExample`). It is right
  with a complement in 128 bits, or as long as there are never 96 adjacent skipped tickets
  (`SkipLock.DefinedUnlessFull`).
- Extending a fragment table of 2^31 slots computes a size of zero (`Reassemble.DoubledSizeIff`).
- While a thread waits for the reciprocating lock, no other thread is handed it more than twice
  (`RpLock.BypassedAtMostTwice`).
- Behind the head of the linked list an insertion never fails (`LinkListCalls.InsertAnswer`).
- A removal from the linked list that returns true has the element out of the list for good, although the code says only
  that another thread has probably unlinked it (`LinkList.RemovedIsOut`), and a traversal misses nothing that stays
  (`LinkList.TraversalMissesNothing`).

## Model

| member | source | states |
|---|---|---|
| `RingIndex.SwizzleRenames` | src/p64_buckring.c:67-73 | Swizzling renames the slots of a ring: two swizzled indexes select the same slot under the mask exactly when the plain ones do, so positions may be reasoned about unswizzled. |
| `RingIndex.AllocInRange` | src/p64_buckring.c:111-118 | Initialisation indexes slots with the swizzled index and no mask: it stays inside the ring for all slots exactly when the ring has one slot or at least 64. |
| `BuckRingSafety.StepKeepsInv` | src/p64_buckring.c:149-373 | One atomic step of any thread, enqueueing or dequeueing, keeps the whole-state invariant. |
| `BuckRingSafety.RunInv` | src/p64_buckring.c:149-373 | The invariant holds in every state of every run, for any number of threads. |
| `BuckRingSafety.OneBuck` | src/p64_buckring.c:211-373 | For each side exactly one slot of the ring carries the mark and no thread holds it, or no slot does and exactly one thread holds it. |
| `BuckRingSafety.BuckPosition` | src/p64_buckring.c:303-373 | For each side the published index plus all increments not made yet is the buck's position, below which every position is finished. |
| `BuckRingSafety.NonFirstSlotsClean` | src/p64_buckring.c:229-291 | No mark of either side ever sits on a slot, other than the first, of a range a thread has acquired and not finished: the question in the code has the answer no and its assertion holds. |
| `BuckRingSafety.NonFirstUnmarked` | src/p64_buckring.c:229-247 | While a thread still owes its first slot, the buck of its side cannot be at any later position of its range. |
| `BuckRingSafety.MatchIsFinished` | src/p64_buckring.c:303-331 | What the scan takes for a finished slot is one: the position it passes over has been written (or emptied) by its owner. |
| `BuckRingSafety.StopNotFinished` | src/p64_buckring.c:303-345 | Where the scan stops and the mark is put, the position is not finished. |
| `BuckRingSafety.DequeueMatchesEnqueue` | src/p64_buckring.c:149-373 | The dequeue of a position returns the element that was enqueued at it, whichever threads and moments. |
| `BuckRingSafety.DequeuedOnce` | src/p64_buckring.c:149-373 | No position is returned by two dequeues: whenever dequeues have returned a position at two moments, they are one call of one thread, which has started nothing else between them. |
| `BuckRingSafety.NothingStranded` | src/p64_buckring.c:347-373 | When all calls have returned, everything acquired is published on both sides and the slots between head and tail hold what was enqueued there. |
| `BuckRingCalls.TakesWhatFits` | src/p64_buckring.c:149-269 | What a call answers, of its arguments: an enqueue that has returned took the first elements of its argument, a dequeue as many, as there was room for at a moment of the call, and all if there was; one that returns nothing had no room at that moment or nothing to do. |
| `BuckRingCalls.ResultOfCall` | src/p64_buckring.c:375-390 | Whoever is at work or has a result has made a call, with arguments. |
| `McasDescriptor.InsertEntry` | src/p64_mcas.c:303-336 | Inserting an entry into the array in place keeps it strictly ascending by address, and is refused exactly when the address is there. |
| `McasDescriptor.MoveLater` | src/p64_mcas.c:303-336 | Shifting the entries behind the insertion point by one keeps all of them. |
| `McasDescriptor.InsertAt` | src/p64_mcas.c:303-336 | Insertion at the point found is sorted insertion. |
| `McasDescriptor.InsertAscending` | src/p64_mcas.c:303-336 | Sorted insertion keeps the entries ascending by address. |
| `McasDescriptor.PrepareSorts` | src/p64_mcas.c:338-368 | Preparing a descriptor sorts the arguments by address and loses none. |
| `McasDescriptor.FillDescriptor` | src/p64_mcas.c:338-368 | Filling a descriptor succeeds exactly when no address repeats, and then holds the arguments in strictly ascending address order. |
| `McasAtomicity.LogicalEffect` | src/p64_mcas.c:94-242 | What one atomic access does to the logical values of all locations: nothing, except the status change of a successful operation and the swap of a single-word one. |
| `McasAtomicity.StepKeepsInv` | src/p64_mcas.c:94-242 | One step of any thread, helping or not, keeps the invariant. |
| `McasAtomicity.RunInv` | src/p64_mcas.c:94-242 | The invariant holds in every state of every run in which no location returns to a successful operation's old value. |
| `McasAtomicity.EveryStepAtomic` | src/p64_mcas.c:94-242 | Each step changes the logical values either not at all, or of exactly one operation's locations all together, from all expected to all new values. |
| `McasAtomicity.StatusFinal` | src/p64_mcas.c:176-242 | An operation's outcome never changes once decided. |
| `McasCalls.CasnAnswer` | src/p64_mcas.c:303-368 | A casn that has returned answers about a descriptor of its own, made of all its arguments; it is refused exactly when an address repeats. |
| `McasCalls.SuccessTookEffect` | src/p64_mcas.c:338-397 | A casn that returns true took effect in one step of its call: just before it each argument's location held the expected value, just after it the new one, and no other location changed. |
| `McasCalls.FailureHadReason` | src/p64_mcas.c:338-397 | One that returns false found an argument's location that held another than its expected value at a moment of the call, and its operation is successful in no state of the run. |
| `McasCalls.ReadWasCurrent` | src/p64_mcas.c:399-459 | A read returns a value that its location logically held at a moment of the call. |
| `McasCalls.SwapAnswer` | src/p64_mcas.c:461-494 | A single-word operation returns true when it has swapped the expected value for the new one in one step of the call, and false when the location logically held another value at a moment of the call. |
| `McasCalls.ResultOfCall` | src/p64_mcas.c:338-494 | Whoever is at work or has a result has made a call, with arguments. |
| `McasAtomicity.WaitIncreases` | src/p64_mcas.c:176-242 | An operation waits for another only at an address higher than the one it is waited for at. |
| `McasAtomicity.ChainAscends` | src/p64_mcas.c:176-242 | Along any chain of waiting operations the addresses strictly increase. |
| `McasAtomicity.NoWaitingCycle` | src/p64_mcas.c:176-242 | No chain of operations blocked on each other closes, so helping cannot cycle, in any state of any run. |
| `Bits64.MatchBelow` | src/p64_mbtrie.c:78-110 | For a prefix longer than the stride, a key matches it exactly when it selects the same slot and the shifted key matches the shifted rest. |
| `Bits64.MatchRange` | src/p64_mbtrie.c:78-110 | For a prefix not longer than the stride, the matching keys are exactly those that select a slot of one contiguous range. |
| `MbtrieSpec.SlotsWellFormed` | src/p64_mbtrie.c:724-774 | An update keeps the shape of the trie on every level. |
| `MbtrieSpec.FetchUpdated` | src/p64_mbtrie.c:466-774 | The effect of an update on every key: keys matching the prefix get their leaf merged, expanded and collapsed vectors included, all others keep it. |
| `LongestPrefix.BestIsLongestLatest` | src/p64_mbtrie.c:795-804 | The reference answer: of the routes covering a key the longest, and of those the latest inserted. |
| `LongestPrefix.LookupIsLongestPrefix` | src/p64_mbtrie.c:880-926 | In a trie that represents a history, lookup returns the longest inserted prefix's element, the latest winning ties, else the default. |
| `LongestPrefix.InsertRepresents` | src/p64_mbtrie.c:795-878 | Inserting any element but the current default takes a trie that represents a history to one that represents the longer history. |
| `LongestPrefix.DefaultRepresents` | src/p64_mbtrie.c:776-793 | Replacing the default does the same for the empty prefix. |
| `LongestPrefix.DefaultInsertIgnored` | src/p64_mbtrie.c:806-878 | Inserting the current default element under a longer prefix changes no lookup at all. |
| `LongestPrefix.InsertCorrectIff` | src/p64_mbtrie.c:806-878 | An insertion leaves every lookup right exactly when the element is not the current default, or no key under the prefix is answered by another element through a prefix not longer. |
| `LongestPrefix.InsertingDefaultFails` | src/p64_mbtrie.c:806-878 | A concrete history after which lookup is wrong, because the default element was inserted under a longer prefix. |
| `LongestPrefix.FilledRepresents` | src/p64_mbtrie.c:795-878 | After any history of insertions, never of the default element, the trie represents that history. |
| `LongestPrefix.EveryHistory` | src/p64_mbtrie.c:880-926 | So lookup of every 64-bit key answers by longest prefix, after every such history. |
| `TrieUpdate.UpdatedKey` | src/p64_mbtrie.c:526-589 | The law of removal and insertion on every key of any trie: outside the prefix nothing changes; a key that named the removed element is answered by the replacement, or by the default; one that named another keeps its leaf if that is of a longer prefix, or the replacement is the default, or there is none and the prefix has one bit; else it is answered by the replacement, or the default. |
| `TrieUpdate.RemovalSparesIff` | src/p64_mbtrie.c:806-878 | Removing an element without a replacement leaves a key under the prefix that names another element alone exactly when there is no default, the prefix has one bit, the key's own prefix is longer, or the default answers it anyway. |
| `TrieUpdate.RemovalTakesOthers` | src/p64_mbtrie.c:806-878 | A concrete trie in which removing an element that was never inserted takes another one's route away. |
| `Mbtrie.Trie.IncrementRefcnt` | src/p64_mbtrie.c:283-294 | Adds to the count of one element, none for the null element. |
| `Mbtrie.Trie.DecrementRefcnt` | src/p64_mbtrie.c:296-310 | Subtracts from the count of one element, and calls it back when its count is then zero. |
| `Mbtrie.Trie.AllocVec` | src/p64_mbtrie.c:312-342 | A new vector names the element in every slot and counts each; no count leaves zero. |
| `Mbtrie.Trie.FreeRun` | src/p64_mbtrie.c:344-404 | Dropping a run of equal words gives up exactly as many references, with a call-back where that was the last. |
| `Mbtrie.Trie.FreeVec` | src/p64_mbtrie.c:344-404 | Freeing a vector gives up exactly the references of everything below it; an element is called back once, exactly when its count falls to zero. |
| `Mbtrie.Trie.SwingSlot` | src/p64_mbtrie.c:466-485 | Swinging a slot moves one reference from the old to the new element, and calls the old one back exactly when that was its last. |
| `Mbtrie.Trie.UpdateSlot` | src/p64_mbtrie.c:526-589 | Updates a slot and everything below it as the specification says, with counts following the slots. |
| `Mbtrie.Trie.UpdateVec` | src/p64_mbtrie.c:660-722 | Expands a leaf where needed and updates the vector below, counts included. |
| `Mbtrie.Trie.CollapseVec` | src/p64_mbtrie.c:591-658 | Replaces a uniform vector by its word, giving back the other references. |
| `Mbtrie.Trie.UpdateBelow` | src/p64_mbtrie.c:591-774 | Updates the vector below a slot and collapses it when elements were removed or replaced, counts included. |
| `Mbtrie.Trie.UpdateRun` | src/p64_mbtrie.c:724-774 | Updates a run of whole slots. |
| `Mbtrie.Trie.UpdatePfx` | src/p64_mbtrie.c:724-774 | The update of a prefix equals its specification, and every element's count changes by the change of the number of slots naming it; an element is called back once, exactly when its count falls to zero, never while a slot names it. |
| `Mbtrie.Trie.ReplaceDefault` | src/p64_mbtrie.c:776-793 | Replaces the default, one reference each way; the old default is called back exactly when that was its last reference. |
| `Mbtrie.Trie.Remove` | src/p64_mbtrie.c:806-878 | Changes the trie exactly by the specified update, or not at all where refused, so that every key is answered as `TrieUpdate.UpdatedKey` says; at rest each element is counted once per slot naming it; an element is called back exactly once when its last reference goes, and so are the element to remove and the new one when the trie does not name them in the end. |
| `Mbtrie.Trie.Insert` | src/p64_mbtrie.c:795-804 | Takes a trie that represents a history to one that represents the longer one, counts exact. |
| `Mbtrie.Trie.LookupKey` | src/p64_mbtrie.c:880-943 | The walk returns what the specification of lookup says. |
| `Mbtrie.Trie.Free` | src/p64_mbtrie.c:427-449 | Freeing gives up every reference except the default's one and calls back once every element that is left with none. |
| `Mbtrie.Trie.ParseData` | src/p64_mbtrie.c:945-1000 | One level of the vector lookup advances every pending key by one level. |
| `Mbtrie.Trie.LookupVec` | src/p64_mbtrie.c:1002-1071 | The vector lookup's result and success bit of each key follow from that key's leaf. |
| `Mbtrie.CountStore` | src/p64_mbtrie.c:466-485 | Storing a word changes the number of slots naming an element by what leaves and what comes. |
| `Mbtrie.InsertionsAgree` | src/p64_mbtrie.c:880-1071 | After insertions, the vector lookup agrees with the single lookup on every key. |
| `Mbtrie.RemovalAgreesIff` | src/p64_mbtrie.c:806-1071 | After removing an element with no replacement, the two lookups agree on a key it answered exactly when there is no default or the prefix had one bit. |
| `Mbtrie.RemovalDisagrees` | src/p64_mbtrie.c:806-1071 | A concrete trie, default, prefix and key that disagree after a removal: the single lookup returns the default, the vector lookup the null element with success. |
| `LfRing.StepKeepsInv` | src/p64_lfring.c:96-288 | One step of any thread keeps the invariant, and the shared indexes and history only move forward. |
| `LfRing.SlotMeaning` | src/p64_lfring.c:137-217 | The index in the slot of a position not beyond the next one tells whether the position is enqueued, next, or overwritten by a later lap. |
| `LfRing.RunInv` | src/p64_lfring.c:96-288 | The invariant holds in every state of every run and shared state only moves forward. |
| `LfRing.SlotsDefineTheTail` | src/p64_lfring.c:137-241 | The slots alone determine the enqueued positions; head is at most the shared tail, that at most the real end, that at most head plus size. |
| `LfRing.DequeueMatchesEnqueue` | src/p64_lfring.c:137-288 | A dequeue returns what was enqueued at its positions. |
| `LfRing.EnqueueInOrder` | src/p64_lfring.c:137-217 | An enqueue places its elements in argument order at strictly increasing positions. |
| `LfRing.DequeuedOnce` | src/p64_lfring.c:244-288 | No position is returned by two dequeues: whenever dequeues have returned a position at two moments, they are one call of one thread, which has started nothing else between them. |
| `LfRing.NothingMeansEmptyOrLapped` | src/p64_lfring.c:220-268 | A dequeue that returns nothing found the ring empty when its scan ended, or its own tail was by then more than a lap behind. |
| `LfRing.NothingMissesNothingPublished` | src/p64_lfring.c:220-288 | When a dequeue of at least one element returns nothing, head and shared tail are equal: every element of every enqueue that has returned has been dequeued. |
| `LfRing.ScanMissesIff` | src/p64_lfring.c:220-241 | In a ring that is not empty, a scan not yet past the dequeue's head stops without a find exactly when its own tail is more than a lap behind the end of the elements. |
| `LfRing.DecidesNothingIff` | src/p64_lfring.c:258-268 | After the scan the dequeue returns nothing exactly when its head is current and equals the shared tail; otherwise it reads. |
| `LfRing.MissingExample` | src/p64_lfring.c:244-288 | The concrete run: a dequeue whose first swap of the head fails returns nothing although the ring held an element in every state of its call; the missed element was placed and not yet published. |
| `LfRingCalls.EnqueuePlacesWhatFits` | src/p64_lfring.c:137-205 | An enqueue that has returned placed the first elements of its argument, and all of them unless the ring was full at a moment of the call. |
| `LfRingCalls.DequeueTakesWhatIsThere` | src/p64_lfring.c:244-288 | A dequeue that has returned has as many elements as it asked for, or all from its position up to the shared tail of a moment of the call; one that returns nothing asked for nothing, or head and shared tail were equal at a moment of the call. |
| `LfRingCalls.ResultOfCall` | src/p64_lfring.c:137-288 | Whoever is at work or has a result has made a call, with arguments. |
| `LinkList.PathUnlinked` | src/p64_linklist.c:20-67 | A path that does not end in the unlinked node survives the unlinking. |
| `LinkList.PathInserted` | src/p64_linklist.c:104-156 | Every path survives an insertion. |
| `LinkList.Unlinking` | src/p64_linklist.c:20-102 | Swinging an unmarked node's link past a marked one loses only that node, and loses it for good. |
| `LinkList.Inserting` | src/p64_linklist.c:104-156 | Putting a new node behind an unmarked one keeps everything reachable and gives the node a place between its neighbours. |
| `LinkList.Search` | src/p64_linklist.c:69-102 | When a removal does not find its element right behind an unmarked node, the element is further on or gone. |
| `LinkList.StepKeepsInv` | src/p64_linklist.c:20-156 | One step of any interleaving of insertions, removals and traversals keeps the invariant, and what it may change. |
| `LinkList.RunInv` | src/p64_linklist.c:20-156 | The invariant holds in every state of every run. |
| `LinkList.NothingLost` | src/p64_linklist.c:20-156 | Every element inserted and not marked is reachable from the list head in every state. |
| `LinkList.RemovalIsFinal` | src/p64_linklist.c:20-102 | A marked element's successor never changes; an element that has left the list was marked and never comes back. |
| `LinkList.OrderIsKept` | src/p64_linklist.c:20-156 | Two elements are in the same order in all states that have both in the list. |
| `LinkList.InsertedBehind` | src/p64_linklist.c:104-156 | A successful insertion has put its element behind the requested predecessor, where it stays until marked. |
| `LinkList.RemovedIsOut` | src/p64_linklist.c:69-102 | A removal that returns true has its element marked and out of the list for good. |
| `LinkList.TraversalMissesNothing` | src/p64_linklist.c:20-67 | A traversal returns elements in list order, each once, and at its end has returned every element that was ahead of it at the start and is still unmarked. |
| `LinkListCalls.InsertAnswer` | src/p64_linklist.c:105-156 | An insertion that returns true put its element into the list in a step of the call; one that returns false did not, and at that moment every node from the requested predecessor to the end was marked. Behind the list head it never fails. |
| `LinkListCalls.RemoveAnswer` | src/p64_linklist.c:70-102 | A removal has marked its element; true means that it is out of the list, false that the given predecessor or a node behind it was marked as well at a moment of the call. |
| `LinkListCalls.NextReturnsUnmarked` | src/p64_linklist.c:21-66 | What next returns is unmarked at that moment, so it is in the list, and lies behind the element it was called with. |
| `LinkListCalls.ResultOfCall` | src/p64_linklist.c:21-156 | Whoever is at work or has a result has made a call, with arguments. |
| `Timer.StepKeepsInv` | src/p64_timer.c:69-94 | One step of any call keeps the invariant: every active timer is covered by the hint or by a call in progress. |
| `Timer.RearmOk` | src/p64_timer.c:326-359 | Setting, resetting or cancelling ends at most the one active arming and begins at most one. |
| `Timer.RunInv` | src/p64_timer.c:69-224 | The invariant holds in every state of every run; fates and time only move forward. |
| `Timer.EarliestAtRest` | src/p64_timer.c:178-224 | Whenever no call is in progress, the hint is at most every active expiration. |
| `Timer.ScanSkipsNothing` | src/p64_timer.c:200-224 | Every arming active and due when a scan begins has an end when the scan is through. |
| `Timer.FiresOnceNotEarly` | src/p64_timer.c:69-94 | An arming that fired was due, is not active, and never fires or changes again. |
| `Timer.OneActiveArming` | src/p64_timer.c:326-359 | A timer's entry in the array is that of its one active arming. |
| `TimerCalls.SetAnswer` | src/p64_timer.c:326-391 | Set, reset and cancel return true when, in one step of the call, the timer was inactive (for set) or active (for the others) and went to the new expiration, its old arming ending and its new one beginning; they return false when at a moment of the call there was no such timer or it was not in that state. |
| `TimerCalls.ExpireAnswer` | src/p64_timer.c:201-224 | When expire returns, every arming active at a moment of the call and due at the tick of its beginning has an end, unless another call in progress takes care of it. |
| `TimerCalls.TickAnswer` | src/p64_timer.c:227-248 | Once the tick has been set, time is not before it. |
| `TimerScan.Lowest` | src/p64_timer.c:96-176 | The earliest expiration not due: a lower bound of them, and one of them or none. |
| `TimerScan.CallsExactly` | src/p64_timer.c:96-176 | The plain scan calls back each due timer once, with its own expiration, and no other. |
| `TimerScan.Timers.ExpireOne` | src/p64_timer.c:69-94 | Expires a timer that is due and leaves one that is not. |
| `TimerScan.Timers.Visit` | src/p64_timer.c:110-174 | One of the four parts of the unrolled loop: stops exactly at the mark, else scans one timer. |
| `TimerScan.Timers.VisitPair` | src/p64_timer.c:110-174 | A pair of timers that was read ahead. |
| `TimerScan.Timers.ScanTimers` | src/p64_timer.c:96-176 | The unrolled loop never reads past the sentinels and does what a plain scan of the timers below the mark does. |
| `TimerScan.Timers.UpdateEarliest` | src/p64_timer.c:178-198 | The hint becomes the minimum. |
| `TimerScan.Timers.Expire` | src/p64_timer.c:200-224 | Alone, an expiry calls back exactly the due timers, deactivates them and leaves a valid hint. |
| `Reorder.StepKeepsInv` | src/p64_reorder.c:89-235 | One step of any thread keeps the invariant. |
| `Reorder.JudgeOk` | src/p64_reorder.c:172-196 | A release that reads the head in its own range becomes the one retirer: nobody else is retiring. |
| `Reorder.PublishKeepsInv` | src/p64_reorder.c:200-235 | Publishing the new head strands nothing: what has arrived there is attended to, or the change indicator has moved. |
| `Reorder.RunInv` | src/p64_reorder.c:89-235 | The invariant holds in every state of every run. |
| `Reorder.CalledInOrderOnce` | src/p64_reorder.c:131-235 | The call-backs are, in sequence-number order and each once, exactly the elements stored for the positions below one number. |
| `Reorder.CallsWhatWasReleased` | src/p64_reorder.c:131-235 | What is called back for a sequence number is what was released for it. |
| `Reorder.OneRetirer` | src/p64_reorder.c:196-235 | At most one thread retires elements, the one whose range contains the head. |
| `Reorder.NothingStranded` | src/p64_reorder.c:172-235 | When all releases have returned, the slot at the head is empty and everything below the head has been called back. |
| `Reorder.AssertionsHold` | src/p64_reorder.c:171-220 | The assertions at lines 171 and 220 hold in every run: a release finds every slot it stores to empty, and a retirer that stops has got past the head. |
| `Reorder.RangeAssertionIff` | src/p64_reorder.c:176-200 | The assertion at line 200, by which a retirer's range would have to end at the head, holds exactly for a release of one element. |
| `Reorder.RangeAssertionFails` | src/p64_reorder.c:131-200 | The concrete run: two numbers acquired and released in one call, in order, violate it. |
| `Reorder.AcquiredOnce` | src/p64_reorder.c:89-117 | No sequence number is acquired twice, nor beyond the window: a number acquired at two moments was acquired by one call of one thread, which has started nothing else between them. |
| `ReorderCalls.AcquireAnswer` | src/p64_reorder.c:90-117 | An acquisition has as many consecutive numbers as it asked for and as the window had room for at a moment of the call, taken in one step; none if none was asked for or there was no room. |
| `ReorderCalls.ReleaseAnswer` | src/p64_reorder.c:131-235 | A release that has returned has had every element stored under its number; it is refused only when its last number had not been acquired when it was called and the callers do not choose the numbers. |
| `ReorderCalls.WorkOfCall` | src/p64_reorder.c:89-235 | Whoever is at work or has acquired numbers has made a call, with arguments. |
| `BuckRob.StepKeepsInv` | src/p64_buckrob.c:86-220 | One step of any thread keeps the invariant. |
| `BuckRob.NonFirstUnmarked` | src/p64_buckrob.c:153-160 | A mark never lies on a position that is not the first of a range being released. |
| `BuckRob.RunInv` | src/p64_buckrob.c:86-220 | The invariant holds in every state of every run; what was released and called back stays so. |
| `BuckRob.OneBuck` | src/p64_buckrob.c:162-220 | There is one buck, held by one thread or lying in exactly the slot of the first position not retired; head plus the increments not made yet is that position. |
| `BuckRob.CalledInOrderOnce` | src/p64_buckrob.c:162-220 | The call-backs are, in order and each once, exactly the elements released for the positions below one number. |
| `BuckRob.AssertionsHold` | src/p64_buckrob.c:153-177 | A release never meets anything but the empty slot or the mark at its first position, and never overwrites the mark. |
| `BuckRob.NothingStranded` | src/p64_buckrob.c:162-220 | When all releases have returned, everything below the head has been called back and nothing has been released for the head. |
| `BuckRob.CallsWhatWasReleased` | src/p64_buckrob.c:122-220 | What is called back for a sequence number is what was released for it. |
| `BuckRobCalls.AcquireAnswer` | src/p64_buckrob.c:87-115 | An acquisition has as many consecutive numbers as it asked for and as the window had room for at a moment of the call, taken in one step; none if none was asked for or there was no room. |
| `BuckRobCalls.ReleaseAnswer` | src/p64_buckrob.c:123-220 | A release that has returned has released every element under its number; it is refused only when its last number had not been acquired when it was called and the callers do not choose the numbers. |
| `BitMask.TrailingOnes` | src/p64_ringbuf.c:282-288 | Counting trailing zeros of the complement counts the trailing ones. |
| `PendWindow.AssertsNeverFail` | src/p64_ringbuf.c:254-292 | A range of slots not released yet that ends inside the window never makes an assertion fail, even when it would fill the window. |
| `PendWindow.NewPendBits` | src/p64_ringbuf.c:278-286 | The mask after or-ing in the shifted range has the bits of exactly the released slots. |
| `PendWindow.Merges` | src/p64_ringbuf.c:275-292 | The merged and shifted word stands for the larger set of released slots. |
| `PendWindow.Advances` | src/p64_ringbuf.c:249-266 | With nothing pending, releasing at the counter moves the counter. |
| `PendWindow.StepKeepsInv` | src/p64_ringbuf.c:232-299 | One step of any release keeps the word standing for the released slots. |
| `PendWindow.WordStandsForReleased` | src/p64_ringbuf.c:232-299 | In every run the counter is the least slot not released, truncated to 32 bits, and the mask is exactly the released slots behind it. |
| `PendWindow.ReleasesAreNotLost` | src/p64_ringbuf.c:232-299 | A release that returned has released its slots for good, and the counter reaches every number below which all slots are released. |
| `PendWindow.GivenIsDone` | src/p64_ringbuf.c:196-300 | Every slot passed to a release is released or one that a release in progress is at; when all have returned, exactly the slots passed to them are released. |
| `PendWindow.AssertsHold` | src/p64_ringbuf.c:275-292 | No assertion on the way of a release fails in any run. |
| `SkipLock.Releasing` | src/p64_skiplock.c:58-94 | A release that counts a complement other than zero advances past the current ticket and exactly the adjacent skipped ones, by at most 97; one that counts zero does so when the undefined count yields 32. |
| `SkipLock.ZeroComplementIff` | src/p64_skiplock.c:37-77 | The complement that is counted is zero exactly when it is taken in the 96 bits of the field and the next 96 tickets have all been skipped. |
| `SkipLock.UndefinedCount` | src/p64_skiplock.c:37-94 | Such a release leaves the lock standing for the tickets done with exactly when the undefined count yields 32; a greater one passes over tickets nobody skipped, a smaller one serves a ticket that was. |
| `SkipLock.Skipping` | src/p64_skiplock.c:96-133 | A skip adds exactly its ticket to those done with. |
| `SkipLock.StepKeepsInv` | src/p64_skiplock.c:31-133 | One step of any thread keeps the lock standing for the tickets done with, as long as no release has used an undefined count. |
| `SkipLock.OneHolderInTicketOrder` | src/p64_skiplock.c:31-133 | At most one thread holds the lock, the one with the least ticket not done with, as long as no release has used an undefined count. |
| `SkipLock.LockStandsForDone` | src/p64_skiplock.c:31-133 | In every run without an undefined count the lock word is the one that stands for the tickets released and skipped, and no release finds another ticket being served. |
| `SkipLock.GivenIsDone` | src/p64_skiplock.c:31-133 | Every ticket used is released or skipped, or its owner has not returned; when all are idle, every ticket is done with. |
| `SkipLock.UndefinedIff` | src/p64_skiplock.c:58-94 | A run has used an undefined count exactly when some step of it is a release, complementing in 96 bits, of a ticket behind which 96 adjacent ones are skipped. |
| `SkipLock.DefinedUnlessFull` | src/p64_skiplock.c:58-133 | No count is undefined when the complement is taken in 128 bits, or while there are never 96 adjacent skipped tickets behind the current one. |
| `SkipLock.FullExample` | src/p64_skiplock.c:31-133 | The concrete run: tickets 1 to 96 are skipped, then ticket 0 is released and the count yields 64; the lock goes to ticket 129, past 97 to 128, which nobody skipped. |
| `RpLock.StepKeepsInv` | src/p64_rplock.c:21-107 | One step of any process keeps the invariant. |
| `RpLock.OneOwner` | src/p64_rplock.c:21-107 | At most one node owns the lock. |
| `RpLock.WaiterHasOnePlace` | src/p64_rplock.c:44-69 | A node that waits is at exactly one place of exactly one of the two segments, and the lock is held or handed over. |
| `RpLock.ReleaseSignalsAWaiter` | src/p64_rplock.c:71-107 | A release signals exactly one live waiter or frees a lock nobody waits for; the code's assertions hold, also when an end-of-segment node is used again. |
| `RpLock.ChancesFall` | src/p64_rplock.c:44-107 | How often another node may still get ahead of a waiting one never rises, and falls each time it does. |
| `RpLock.BypassedAtMostTwice` | src/p64_rplock.c:44-107 | While a node waits, no other node is handed the lock more than twice. |
| `Qsbr.NoHolder` | src/p64_qsbr.c:288-313 | Nobody holds an object that a collection is about to call back. |
| `Qsbr.SeenOn` | src/p64_qsbr.c:77-90 | A collection that reads one more interval still sees every holder of its objects. |
| `Qsbr.StepKeepsInv` | src/p64_qsbr.c:161-347 | One step of any thread keeps the invariant, releases after a deactivation included. |
| `Qsbr.RunInv` | src/p64_qsbr.c:161-347 | The invariant holds in every state of every run. |
| `Qsbr.NothingReclaimedIsHeld` | src/p64_qsbr.c:161-347 | No reclaimed object is referenced by any thread. |
| `Qsbr.ReclaimedOnceOrKept` | src/p64_qsbr.c:316-347 | An object is called back at most once, and until then a retired one waits in its owner's queue. |
| `Qsbr.SweepKeepsNothingBack` | src/p64_qsbr.c:288-313 | What a sweep leaves was retired no earlier than an interval it read: stopping early keeps back nothing the minimum allows. |
| `Qsbr.HoldersAreSeen` | src/p64_qsbr.c:161-234 | A holder has published an interval no later than the retirement of what it holds, at an index every collection reads. |
| `Qsbr.QuiescentActivates` | src/p64_qsbr.c:215-285 | Whoever announces quiescence is active afterwards, so a last release after a deactivation makes the thread active again. |
| `QsbrCalls.RetireAnswer` | src/p64_qsbr.c:316-347 | A retirement that returns true has put the object into the thread's queue; one that returns false leaves it to the caller, and then the queue was full, its collection has called nothing back, and every object in it is kept by an interval the collection read. |
| `QsbrCalls.QuiescentAnnounces` | src/p64_qsbr.c:222-285 | A call that announces quiescence, a last release included, publishes the interval that was current when it began. |
| `HazardPtr.NoHolder` | src/p64_hazardptr.c:730-767 | Nobody holds a validated reference to an object a collection is about to reclaim. |
| `HazardPtr.SeenOn` | src/p64_hazardptr.c:648-700 | A collection that reads one more slot still sees every holder of its objects. |
| `HazardPtr.StepKeepsInv` | src/p64_hazardptr.c:440-534 | One step of any thread or of the client keeps the invariant. |
| `HazardPtr.RunInv` | src/p64_hazardptr.c:440-797 | The invariant holds in every state of every run. |
| `HazardPtr.NoHeldObjectIsFree` | src/p64_hazardptr.c:440-534 | No object is reclaimed while a thread holds it through a validated hazard pointer. |
| `HazardPtr.OnlyUnheldIsReclaimed` | src/p64_hazardptr.c:730-767 | What a collection reclaims is held by nobody. |
| `HazardPtr.RetiredIsKept` | src/p64_hazardptr.c:769-797 | A retired object waits exactly once, in its owner's queue, which never exceeds its limit. |
| `HazardCalls.AcquireAnswer` | src/p64_hazardptr.c:440-520 | When an acquisition returns, the thread holds, through the given slot or a new one, the reference that is in the location at that moment; or there is none in it; or no slot was given and none is free. |
| `HazardCalls.RetireAnswer` | src/p64_hazardptr.c:769-797 | A retirement that returns true has put the object into the thread's queue; one that returns false leaves it to the caller, and then the queue was full, its collection has reclaimed nothing, and every object in it was announced in some slot at a moment of the call. |
| `HazardGc.RowsHave` | src/p64_hazardptr.c:648-700 | The gathered references are exactly the non-null ones in the slots of the threads. |
| `HazardGc.CollectRefs` | src/p64_hazardptr.c:648-700 | Gathering two rows at a time, then the odd one, then sorting, gives every non-null slot, ascending. |
| `HazardGc.GatherPair` | src/p64_hazardptr.c:656-680 | Two rows side by side. |
| `HazardGc.GatherOne` | src/p64_hazardptr.c:682-693 | The odd row. |
| `HazardGc.SortedAscends` | src/p64_hazardptr.c:694-697 | Sorting gives an ascending sequence of the same references. |
| `HazardGc.FindPtr` | src/p64_hazardptr.c:703-727 | Halving finds a pointer exactly when it is in the ascending range. |
| `HazardGc.KeptIffAnnounced` | src/p64_hazardptr.c:730-767 | What a collection keeps is exactly what was retired and is announced by some thread; the rest is called back. |
| `HazardGc.ThreadState.GarbageCollect` | src/p64_hazardptr.c:730-767 | Compacting in place keeps the referenced objects in order and calls back all others in order. |
| `HazardGc.ThreadState.Retire` | src/p64_hazardptr.c:769-797 | Retiring appends the object, after a collection if there was no space, and refuses only when nothing was freed. |
| `PfRwLock.NextPhase` | src/p64_pfrwlock.c:109-131 | When nobody of the current phase is left, the readers of the next phase are exactly those pending. |
| `PfRwLock.StepKeepsInv` | src/p64_pfrwlock.c:49-131 | One step of any thread keeps the invariant; at most one writer exit happens in it. |
| `PfRwLock.WriterExcludes` | src/p64_pfrwlock.c:95-131 | A writer in its critical section excludes all readers and all other writers. |
| `PfRwLock.WritersInTicketOrder` | src/p64_pfrwlock.c:95-131 | The writer inside has the least ticket not given back, and every later one is held by a waiting thread. |
| `PfRwLock.ReaderWaitsForOneWriter` | src/p64_pfrwlock.c:75-86 | A waiting reader waits for exactly one writer to leave, and the awaited phase is not overtaken before it has been in. |
| `PfRwLock.AtRest` | src/p64_pfrwlock.c:49-131 | When all threads are idle the counters are at rest. |
| `LaxRob.RetireOneValid` | src/p64_laxrob.c:128-145 | Retiring a slot keeps the window and the order of the output. |
| `LaxRob.RetireSlotsValid` | src/p64_laxrob.c:128-145 | Moving the window by any distance loses nothing and keeps the order; a lap or more leaves it empty. |
| `LaxRob.MovedSlotEmpty` | src/p64_laxrob.c:164-176 | The slot a new element beyond the window goes to is empty once the window has moved. |
| `LaxRob.InsertElemValid` | src/p64_laxrob.c:150-192 | An insertion adds exactly its element, and every slot still holds only elements of the window that select it. |
| `LaxRob.OnlyStragglersAreLate` | src/p64_laxrob.c:150-186 | An insertion outputs its element out of order exactly when its number is before the window; whatever else it outputs is in order. |
| `LaxRob.MovesJustEnough` | src/p64_laxrob.c:150-186 | An insertion moves the window just as far as its element needs to be its last one. |
| `LaxRob.InsertAllValid` | src/p64_laxrob.c:150-192 | So does the insertion of a list. |
| `LaxRob.FlushOutputsAll` | src/p64_laxrob.c:331-361 | Flushing a whole window outputs everything put in, as often as it was put in. |
| `LaxRob.Rob.RetireList` | src/p64_laxrob.c:105-125 | Outputs a list through the vector. |
| `LaxRob.Rob.Output` | src/p64_laxrob.c:105-125 | Adds one element to the output, calling back when the vector is full. |
| `LaxRob.Rob.RetireAt` | src/p64_laxrob.c:128-145 | Retires the oldest slot. |
| `LaxRob.Rob.Retire` | src/p64_laxrob.c:128-145 | Retires as many slots as asked, in one pass over the ring. |
| `LaxRob.Rob.InsertOne` | src/p64_laxrob.c:150-186 | Inserts one element: straggler, beyond the window, or inside. |
| `LaxRob.Rob.InsertElems` | src/p64_laxrob.c:150-192 | Inserts a list and flushes the vector. |
| `LaxOwner.StepKeepsInv` | src/p64_laxrob.c:194-361 | One step of any thread keeps one owner, the window, and the account of every element, dropped ones included. |
| `LaxOwner.OneOwner` | src/p64_laxrob.c:194-302 | At most one thread owns the buffer. |
| `LaxOwner.NothingLost` | src/p64_laxrob.c:194-361 | Each element passed to an insertion is output, in its slot, enqueued, in a thread's hands or dropped, as often as it was passed; nothing is dropped as long as nobody inserts an empty list. |
| `LaxOwner.IdleHasEverything` | src/p64_laxrob.c:237-329 | When all calls have returned: the buffer is idle unless an empty list was inserted into the idle buffer; every element is output or in its slot exactly when no step dropped any and none is left enqueued, which is so when nobody ever inserted an empty list. |
| `LaxOwner.FlushAnswer` | src/p64_laxrob.c:331-361 | A flush that has returned moved the window by the distance asked for, in one step of the call. |
| `LaxOwner.LosesIff` | src/p64_laxrob.c:194-235 | A step never doubles an element, and loses one exactly when it joins an empty list to enqueued elements. |
| `LaxOwner.NothingLostIff` | src/p64_laxrob.c:194-361 | In a run every element is in its place exactly when no step so far was such a join. |
| `LaxOwner.LostExample` | src/p64_laxrob.c:194-329 | The concrete run: one thread owns the buffer, another enqueues an element, a third inserts nothing; the buffer ends idle and the element is nowhere. |
| `LaxOwner.InsertingNothingBlocks` | src/p64_laxrob.c:304-329 | After such an insertion nobody ever owns the buffer again. |
| `LaxOwner.StuckExample` | src/p64_laxrob.c:304-329 | The concrete run: one thread inserting nothing leaves the buffer busy for good. |
| `HopscotchSpec.NamedOnce` | src/p64_hopscotch.c:404-480 | Each occupied bucket is named by exactly one home bitmap bit, at most 23 positions on, and no empty one by any. |
| `HopscotchSpec.PlacedIsOk` | src/p64_hopscotch.c:536-559 | Writing an element into an empty bucket of its neighbourhood and setting its home bit keeps the layout. |
| `HopscotchSpec.TakenIsOk` | src/p64_hopscotch.c:889-946 | Clearing a home bit and the bucket it names keeps the layout. |
| `Hopscotch.MovedIsOk` | src/p64_hopscotch.c:704-773 | Displacing an element keeps the layout and every stored element. |
| `Hopscotch.Table.FindEmpty` | src/p64_hopscotch.c:600-619 | Finds an empty bucket, or all are full. |
| `Hopscotch.Table.FindMoveCandidate` | src/p64_hopscotch.c:621-654 | Finds the element that may move to the empty bucket, of the farthest home bucket with a bit in front of it the lowest bit, and fails exactly when there is no such home bucket. |
| `Hopscotch.Table.MoveElem` | src/p64_hopscotch.c:704-773 | A displacement keeps every stored element and frees a bucket closer to home; it fails only when nothing can move, and then changes nothing. |
| `Hopscotch.Table.InsertBkt` | src/p64_hopscotch.c:775-817 | Inserts by displacement, which ends because the distance falls; fails only when all buckets are full or an empty one lies outside the neighbourhood and nothing can move into it, and keeps every stored element. |
| `Hopscotch.Table.InsertCell` | src/p64_hopscotch.c:819-866 | Inserts into the cellar and sets the home bucket's bit; fails only when it is full. |
| `Hopscotch.Table.Insert` | src/p64_hopscotch.c:868-887 | Adds exactly the element; fails only when displacement is stuck and the cellar full, and then changes the contents not at all. |
| `Hopscotch.Table.RemoveBkt` | src/p64_hopscotch.c:889-946 | Removes an element from the buckets exactly when one holds it. |
| `Hopscotch.Table.UpdateCellar` | src/p64_hopscotch.c:561-598 | Recomputes the cellar bit. |
| `Hopscotch.Table.RemoveCell` | src/p64_hopscotch.c:948-980 | Removes an element from the cellar exactly when a cell holds it. |
| `Hopscotch.Table.Remove` | src/p64_hopscotch.c:982-1001 | Removes one occurrence, and fails only if there is none. |
| `Hopscotch.Table.SearchCellar` | src/p64_hopscotch.c:352-395 | Finds an element of the key in the cellar if one is there under that hash. |
| `Hopscotch.Table.Lookup` | src/p64_hopscotch.c:404-494 | Finds an element of the key if one is stored under that key and hash, and never anything else. |
| `Fragments.SortedIs` | src/p64_reassemble.c:64-105 | Sorting gives the same fragments ascending by hash and offset. |
| `Fragments.CompleteIff` | src/p64_reassemble.c:412-434 | For fragments of one datagram without overlaps or empty ones, the sums reach the size exactly when all are there. |
| `Fragments.SortsToDatagram` | src/p64_reassemble.c:64-105 | Sorting all fragments of such a datagram gives the datagram, whatever the order of arrival. |
| `Reassemble.SortFrags` | src/p64_reassemble.c:64-105 | The insertion loop computes the sorted list. |
| `Reassemble.Scan` | src/p64_reassemble.c:110-184 | What is taken for complete is a datagram: one hash, from offset zero, without gap or overlap, more to come on all but the last; and a datagram is taken so. |
| `Reassemble.IsComplete` | src/p64_reassemble.c:110-184 | Finds a complete datagram in the list, at least when the list is one; behind a broken one the search goes on at the first fragment whose hash is not the low 32 bits of the broken one's. |
| `Reassemble.Recompute` | src/p64_reassemble.c:412-434 | The saturated sum, the least total size and a bound on the arrival times. |
| `Reassemble.FindStale` | src/p64_reassemble.c:617-640 | Parts a list into stale and fresh fragments without losing any. |
| `Reassemble.Table.HandOut` | src/p64_reassemble.c:376-392 | Hands out only datagrams, and each fragment at most once. |
| `Reassemble.Table.TryInsert` | src/p64_reassemble.c:435-535 | One try merges exactly when the sums do not reach the size, or when the try before handed out nothing and nothing has come since; otherwise it empties the slot and hands out what is complete. |
| `Reassemble.Table.InsertFrags` | src/p64_reassemble.c:435-535 | Each fragment is handed out once or lies in its slot with right sums, no other slot changes, and incomplete slots keep everything. |
| `Reassemble.Table.SplitAndInsert` | src/p64_reassemble.c:537-586 | Every fragment goes to the slot its hash selects; slots that none selects stay as they are. |
| `Reassemble.Table.InsertFrag` | src/p64_reassemble.c:588-614 | The fragments of one datagram, alone in their slot, are handed out exactly when the last arrives, in any arrival order. |
| `Reassemble.Table.ExpireSlot` | src/p64_reassemble.c:642-701 | Takes exactly the stale fragments out of a slot. |
| `Reassemble.Table.Expire` | src/p64_reassemble.c:703-749 | Leaves no stale fragment behind and hands out none as stale that is not. |
| `Reassemble.DoubledSizeIff` | src/p64_reassemble.c:822-832 | In 32 bits the doubled size is right exactly for tables of less than 2^31 slots, and zero for one of 2^31. |
| `Reassemble.IndexSplits` | src/p64_reassemble.c:751-793 | In the doubled table a hash selects one of the two slots 2i and 2i+1 that its old slot i becomes. |
| `Reassemble.Table.MigrateSlot` | src/p64_reassemble.c:751-793 | Clears the two slots that slot i becomes, which nothing has been put into before, and moves the fragments of slot i there and nowhere else, or hands them out. |
| `Reassemble.Table.Extend` | src/p64_reassemble.c:786-872 | Doubling the table moves every fragment, as often as it is there, to a slot of the new table that its hash selects, or hands it out; the doubled size is the one computed in 32 bits. Refused at the greatest size. |
| `Cuckoo.SiblingInvolution` | src/p64_cuckooht.c:776-798 | The sibling is the other one of an element's two distinct buckets, and its sibling the first. |
| `Cuckoo.OnlyThere` | src/p64_cuckooht.c:583-640 | An element's two buckets, and the cellar if its first bucket says so, are the only places it can be. |
| `Cuckoo.SlotSet` | src/p64_cuckooht.c:710-742 | Writing an element to a slot of one of its buckets, or emptying a slot, keeps the layout. |
| `Cuckoo.Table.MakeRoom` | src/p64_cuckooht.c:967-1037 | Frees a slot by moving one element to its other bucket and loses nothing; fails only when all those buckets are full. |
| `Cuckoo.Table.InsertInto` | src/p64_cuckooht.c:744-773 | Inserts into one bucket, making room first if asked to. |
| `Cuckoo.Table.InsertCell` | src/p64_cuckooht.c:1040-1090 | Inserts into the cellar and sets the first bucket's bit. |
| `Cuckoo.Table.Insert` | src/p64_cuckooht.c:1141-1230 | Adds exactly the element; fails only when nothing could be moved and the cellar is full, and then leaves the buckets as they were. |
| `Cuckoo.Table.RemoveFrom` | src/p64_cuckooht.c:1232-1275 | Removes the element from a bucket exactly when it holds it. |
| `Cuckoo.Table.UpdateCellar` | src/p64_cuckooht.c:1278-1315 | Recomputes the cellar bit. |
| `Cuckoo.Table.RemoveCell` | src/p64_cuckooht.c:1318-1350 | Removes the element from the cellar exactly when a cell holds it. |
| `Cuckoo.Table.Remove` | src/p64_cuckooht.c:1407-1471 | Removes one occurrence, and fails only if there is none. |
| `Cuckoo.Table.SearchBucket` | src/p64_cuckooht.c:487-530 | Finds an element of that key and whole hash in a bucket if one is there, not only one of the same signature. |
| `Cuckoo.Table.SearchCellar` | src/p64_cuckooht.c:533-580 | The same in the cellar. |
| `Cuckoo.Table.Lookup` | src/p64_cuckooht.c:583-661 | Finds an element of that key and hash if one is stored, and never anything else. |
| `HashTable.Findable` | src/p64_hashtable.c:200-315 | Every stored element is first at some head of its bucket, with its hash in that head, or chained at its home head. |
| `HashTable.Appended` | src/p64_hashtable.c:408-429 | Linking a new element at the end of a chain keeps the layout, hashes in the predecessors included. |
| `HashTable.Unlinked` | src/p64_hashtable.c:374-406 | Swinging the predecessor's link past an element, hash and all, keeps the layout and removes only that element. |
| `HashTable.Table.InsertNode` | src/p64_hashtable.c:408-429 | The end of the way from a head takes the element; the link there is exactly the null link with hash zero that the compare-and-swap expects, whatever else is wrong with the table. |
| `HashTable.Table.BucketInsert` | src/p64_hashtable.c:431-457 | The first empty head of the bucket takes the element, at home there or not and stored elsewhere or not; fails exactly when all heads are taken. |
| `HashTable.Table.ListInsert` | src/p64_hashtable.c:459-526 | The end of the home chain takes the element, unless it is met on the way, which is reported. |
| `HashTable.Table.Insert` | src/p64_hashtable.c:530-558 | Adds exactly an element that is not there. One that is leaves the links those of a table of the same elements exactly when no head of its bucket is empty and it is the last of the home chain; then nothing has changed and it is reported. |
| `HashTable.ClearedLinkOk` | src/p64_hashtable.c:530-558 | The first store of an insertion, which clears the element's own link, keeps the layout of a table that holds the element already exactly when it is the last of its chain. |
| `HashTable.PresentInserted` | src/p64_hashtable.c:431-558 | What a whole insertion of a stored element leaves is the links of some table of the same elements exactly when the bucket has no empty head and the element is last of the home chain. |
| `HashTable.Twice` | src/p64_hashtable.c:431-526 | Two different links to one element are the links of no table. |
| `HashTable.CutOff` | src/p64_hashtable.c:530-558 | Clearing the link of an element that has others chained behind it cuts them off: the links are those of no table of the same elements. |
| `HashTable.Table.RemoveNode` | src/p64_hashtable.c:374-406 | Marks and unlinks an element; the predecessor's link is exactly what the compare-and-swap expects, the element's hash included. |
| `HashTable.Table.FindHead` | src/p64_hashtable.c:561-585 | Whether the element is first at a head of its bucket. |
| `HashTable.Table.RemoveFromList` | src/p64_hashtable.c:587-650 | Removes the element from its home chain. |
| `HashTable.Table.Remove` | src/p64_hashtable.c:652-675 | Removes the element, and fails only if it is not there. |
| `HashTable.Table.ListLookup` | src/p64_hashtable.c:252-293 | Finds an element of the key in a chain if there is one. |
| `HashTable.Table.Lookup` | src/p64_hashtable.c:200-333 | Finds an element of the key if one is stored under that key and hash, and never anything else. |

## Left out

- Weak memory orderings, fences, prefetching, back-off, vector instructions, inline assembly, futexes, allocation failure and error-handler plumbing: the machines take sequentially consistent steps, and calls the code reports as errors do nothing.
- Wrap-around of 32-bit and 16-bit ring positions, tickets and counters: they are naturals, except in `PendWindow` and `SkipLock`, where the words are truncated to 32 bits and less than 2^32 slots or tickets are outstanding.
- Arguments that a call refuses before it looks at shared memory (the invalid tick, values and elements with low bits set, null elements), and the counts that calls to reclaim return.
- Progress of the lock-free loops and of waiting threads: runs may be unfair; only what is true in every state of every run is stated.
- McasAtomicity.RunInv: assumes that no location changed by a successful operation holds that operation's old value again later, and fresh descriptors; helpers share one conditional descriptor and read and change the status in separate steps, so without that assumption atomicity is not claimed.
- Reclamation inside the other structures: descriptors, nodes and elements are not reused while a call may refer to them; `Qsbr` and `HazardPtr` model reclamation by itself. `p64_hazptr_publish`, which does not validate, and the quiescent-state variant of hazard pointers are not modelled.
- The pass-the-buck ring aborts on the reserved element; the model takes elements that are valid.
- Single-producer and single-consumer modes of the lock-free ring and of the ring buffer, and the ring buffer's blocking modes and copying.
- The call-back with a null element that ends a batch in the two reorder buffers, and releases with null elements, which the strict buffer reports as an error halfway.
- A retirer's clearing of a slot and its call-back are one step in `Reorder` and `BuckRob`: nobody else looks at the slot before the head is published.
- Allocation and freeing of timers while others are in use: the set of timers is fixed. Call-backs that call the timer functions behave like calls of another thread.
- Timers, quiescent-state intervals and fragment arrival times compare as numbers, not in serial-number arithmetic.
- LinkList.TraversalMissesNothing: says nothing about termination; a traversal whose predecessor and current element are both marked can go round for as long as nobody unlinks them.
- SkipLock.LockStandsForDone: the assertion in the skip about its own mask bit is evaluated on a copy that may be torn; the model lets the copy be anything and does not claim that assertion. A release of such a copy may count a zero complement too; its compare-and-swap fails and the count is discarded, so the model takes it for harmless. What happens after an undefined count was used is not claimed.
- Assertions of the lax reorder buffer: `LaxRob` and `LaxOwner` do not claim them. The one at src/p64_laxrob.c:110, that an element to output has the oldest number, fails for stragglers; the one at src/p64_laxrob.c:233, that the output vector is empty, is evaluated by enqueuers too and fails while the owner has output in it.
- PfRwLock.ReaderWaitsForOneWriter: the awaited value is computed without truncation in the code, so nothing is claimed across a wrap of the 16-bit counter.
- Concurrent use of the trie, the hash tables and the fragment table: the classes are used by one thread. Sub-vectors of the trie, chains of elements in the lax buffer and lists of fragments are values, so sharing between them is not captured; the hash table's links are modelled one by one.
- Longest-prefix matching for insertions after removals, whose replacements are tagged with the removed prefix's length.
- The change counters and move tags of the hopscotch and cuckoo tables, removal by key, and the vector lookups of the hash tables.
- HashTable.Table.Insert: says of an insertion of a stored element whether the links are still those of a table, not what later calls do with links that are not.
- Reassemble.Table.Extend: requires that the table has not 2^31 slots; the code's doubled size is then zero and the shift of zero undefined (see `Reassemble.DoubledSizeIff`). A table of 2^32 slots, which 32 bits cannot count either, is not modelled.
- A fragment table of one slot: the code then shifts a 32-bit hash by 32. The model has at least two slots.
- Reassemble.IsComplete: a complete datagram that shares its slot with fragments of other hashes may be passed over, because a missing first fragment ends the search.
- Reassembly while another thread extends the table, and closed slots, which one thread never meets.
- `p64_deque.c`, `p64_msqueue.c`, `p64_counter.c`, coroutines and fibers, benchmarks and examples, `verify.c`, and the simpler parts: spin, ticket, MCS and CLH locks, semaphores, barriers, the other reader/writer locks, the anti-replay window, the block ring and the stacks.
