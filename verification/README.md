# Verification of the hy_utils cores

The hy_utils library is plain C with small stateful cores. This project models those cores in
Dafny and proves what they keep, what they compute and where they stop doing so:

- the hashed **timer wheel** of `src/hy_timer.c` over the intrusive circular list of
  `include/hy_list.h`, down to the pointers, and the naive table of waiting times it stands for;
- all the operations of that **list** and of the singly headed **hlist** with its `pprev` pointers;
- the byte **ring buffer** of `src/hy_fifo.c` with counters that wrap around, alone, between two
  threads, and as the queue of LED records in `src/hy_net_wired.c`;
- the **AT modem engine** of `src/hy_at_utils.c`: the scan for catch strings, the reassembly of
  `+IPD` frames, the command queue and its flow control;
- the chained **hash table** of `src/utils_hash.c`, **MD5** (`src/hy_md5sum.c`) against RFC 1321,
  the in-place **sorts** of `src/hy_sort.c`, the **node sort** of `example/hy_list_test.c` and the
  **text codecs** of `src/hy_utils.c`.

Code that changes things step by step is a class or a method with loops, proved against functions
on values; the results about whole runs are lemmas about those functions.

## How the files fit together

| files | content |
|---|---|
| `HyList`, `HyHlist` | the two list structures as objects with next, prev and pprev fields |
| `TimerSpec`, `TimerTable`, `TimerRuns`, `TimerSlots`, `TimerOrder`, `TimerWheel` | one pass on values; the naive table; runs; what a pass leaves on every slot; the order of the calls; the class over the linked lists |
| `Fifo`, `SpscFifo`, `SpscTransfer`, `SpscOverrun`, `UseCount`, `LedQueue` | the ring buffer; two threads step by step; what a put stores and a get takes; when the compiled macro overruns; the used counter; records |
| `AtSpec`, `AtTags`, `AtHeader`, `AtFrames`, `AtQueue`, `AtLaws`, `AtRuns`, `AtCut`, `AtStops`, `AtFlow`, `AtProgress`, `AtEngine`, `AtUtils` | turns of the engine; what the scan drops; the frame header; what a turn takes; the queue; single turns told on bytes and numbers; runs; a run that is not defined; where it stops for good; flow control; progress of commands and frames; the read loop; the class over the FIFO |
| `HashSpec`, `HashTable` | hashes, buckets and the map; the class over hlists |
| `Words`, `Md5Spec`, `Md5Vector`, `Md5` | 32-bit words; MD5 as RFC 1321 states it; a digest of its section A.5; the code |
| `Sort`, `ListSort`, `Codec`, `TextLaws` | sorts, node sort, codecs; the scan formats and bit operators they use |
| `Basics`, `Arith`, `Bits` | bytes and widths; division, powers of two, masking |

`dafny verify dfyconfig.toml` checks all of it.

## Where the code differs from what is said about it

In these places the code is modelled as it is, and a lemma says exactly when it does what is
promised.

- `include/hy_timer.h:44` promises a delay of `expires` ticks. `HyTimerAdd` does not count from the
  current slot (`src/hy_timer.c:66`), so the first wait is `expires` exactly if the wheel stands at
  slot 0 (`FirstWaitExact`).
- A repeating timer whose `expires` is a multiple of the number of slots is linked back to the list
  that is being walked. It comes back a lap late exactly if it is the last entry and the only one
  that does so (`OnTimeExactly`, `TickStarts`, `LateExample`). A pass over a slot with two repeating
  timers of `expires` 0 does not end (`PassEnds`). A single one fires once, twice or three times in
  the pass, according to its company on the slot (`ZeroFiresExactly`), and then a lap later again
  (`ZeroSchedule`).
- The used length of the FIFO is right exactly if nothing was dropped past its counter, the free
  length exactly if `out` is 0 or half the range (`HyFifo.GetInfo`). A length of 2^32 or more is cut
  (`CutLengthExactly`). Sizes above 2^31 are not rounded up (`ChooseSize`).
- The comment in `src/hy_fifo.c:117-129` describes one snapshot of the other side's counter. The
  macro that is compiled reads it twice; a put can then run past its data exactly if it finds no
  more room than it needs, is smaller than the buffer, and the other thread is not itself about to
  overrun. A get likewise (`PutCanOverrunExactly`, `GetCanOverrunExactly`). With LED records only, and
  again unless the other thread is itself about to overrun, a put can tear one exactly if there is
  room for one at most, and a get exactly if one at most is waiting (`RecordCanTearExactly`).
- Both threads change the used counter of the FIFO by a load and a store. It is right after a run
  exactly if the lost changes cancel out, and always if no store comes after one that its load did
  not see (`PolledExactly`); otherwise a record can wait in the queue while `_led_loop_cb` polls 0
  (`LostUpdate`), or the value polled stays too high (`LostRemoval`).
- The head scan of the AT engine drops a byte that may begin a catch string exactly if it is alone
  in the FIFO, is not a catch string of one byte and is not the prompt (`HeadLosesExactly`).
- A frame header is accepted exactly if eight bytes or more are in view and it is whole and announces
  data, or if the view is exactly eight bytes that end in its three digits (`HeaderTakenExactly`). In
  the second case the code copies a negative number of bytes (`src/hy_at_utils.c:346`). That case, and
  a number of eight characters or more, which overruns its buffer, are all in which a header leads
  out of what the language defines (`IpdUndefinedExactly`); "+IPD,123" arriving by itself is enough
  (`CutHeaderIsReached`). So frames are exact however the input is cut up as long as no cut leaves
  such a view; `FramesAreExact` covers every run up to the first turn that is not defined, and
  `TurnDefinedExactly` tells which turns are.
- After the last try of the only command fails, the engine is led to a command that is not there
  (`ResendsExactly`). When the last try of a command runs out of time, `HyAtUtilsProcess` reports that
  the connection is closed, but the command stays in the queue and is sent again, its count of tries
  wrapping around to 255 (`TimeLimitExactly`, `ClosedCommandIsSentAgain`).
- After the reply that the connection is closed, the engine stays in that state: if a byte is behind
  the reply, it is reported again by every call, and until a cleaning nothing more is read, delivered
  or sent (`ClosedHalts`, `HaltsForGood`). The same holds of the replies the switch has no case for,
  of a signal text that ends in a zero byte without an "OK" or begins with it, and of a full FIFO
  whose front waits for more. `TurnStaysExactly` tells the turns that leave the engine as it is.
- `UtilsHashItemAdd` never replaces a value: the new block is freed at once, and the value copied to a
  null pointer (`src/utils_hash.c:278-289`). A history is defined exactly if every key added is one
  that `UtilsHashItemGet` would not find at that point, and then the table is the map that is meant
  (`WrittenExactly`, `GetIsLastAdded`); two additions for one key are not (`ReplaceIsNotDefined`).
- Whatever the number of buckets, the hash table uses 32 of them at most (`UsesFewBuckets`).

## Model

| member | source | states |
|---|---|---|
| `HyList.RingFacts` | include/hy_list.h:76-95 | next and prev of a list are mutually inverse at every node |
| `HyList.InitListHead` | include/hy_list.h:76-79 | the node is an empty list |
| `HyList.AddBetween` | include/hy_list.h:88-95 | the new node stands between the two neighbours, the ring is kept |
| `HyList.ListAdd` | include/hy_list.h:110-112 | the node stands right behind the given one |
| `HyList.ListAddTail` | include/hy_list.h:122-124 | the node stands right before the given one |
| `HyList.DelEntry` | include/hy_list.h:133-148 | the ring without the node, whose own pointers stay |
| `HyList.ListDel` | include/hy_list.h:150-154 | the ring without the node, whose pointers are invalid |
| `HyList.ListReplace` | include/hy_list.h:168-174 | the new node has the place of the old one, also on an empty list |
| `HyList.ListReplaceInit` | include/hy_list.h:176-180 | as list_replace, and the old node is an empty list |
| `HyList.ListDelInit` | include/hy_list.h:186-189 | the ring without the node, which is an empty list |
| `HyList.ListMove` | include/hy_list.h:196-199 | the node leaves its place and stands behind the given one, within a list or from one to another |
| `HyList.ListMoveTail` | include/hy_list.h:206-210 | the same, before the given node |
| `HyList.ListIsLast` | include/hy_list.h:217-220 | true exactly for the last node |
| `HyList.ListEmpty` | include/hy_list.h:226-228 | true exactly if the head is alone |
| `HyList.ListRotateLeft` | include/hy_list.h:252-259 | the first entry becomes the last, an empty list stays |
| `HyList.ListIsSingular` | include/hy_list.h:265-267 | true exactly if there is one entry |
| `HyList.CutAt` | include/hy_list.h:269-278 | the list is split in two rings behind the entry |
| `HyList.ListCutPosition` | include/hy_list.h:294-308 | the entries up to the given one move to the other head; an empty list is left alone |
| `HyList.SpliceBetween` | include/hy_list.h:310-321 | the entries of one list stand between two neighbours of another |
| `HyList.ListSplice` | include/hy_list.h:328-333 | splicing is insertion of one sequence in another behind a node |
| `HyList.ListSpliceTail` | include/hy_list.h:340-345 | the same before a node |
| `HyList.ListSpliceInit` | include/hy_list.h:354-360 | the same behind a node, and the first list is empty |
| `HyList.ListSpliceTailInit` | include/hy_list.h:370-376 | the same before a node, and the first list is empty |
| `HyList.CutThenSplice` | include/hy_list.h:294-333 | cutting a list and splicing the part back in restores it |
| `HyHlist.PprevPointsBack` | include/hy_list.h:645-651 | at every node of a list, *pprev is that node |
| `HyHlist.ChainUnique` | include/hy_list.h:716-717 | following next from the head visits exactly one sequence of nodes |
| `HyHlist.HlistUnlink` | include/hy_list.h:645-651 | the list without the node, from the node alone |
| `HyHlist.HlistDel` | include/hy_list.h:653-657 | the same, and the pointers of the node are invalid |
| `HyHlist.HlistDelInit` | include/hy_list.h:659-664 | the same with cleared pointers; a node on no list is left alone |
| `HyHlist.HlistAddHead` | include/hy_list.h:666-674 | the node is first, the invariant of pprev holds |
| `HyHlist.HlistAddBefore` | include/hy_list.h:677-683 | the node stands right before the given one, also before the first |
| `HyHlist.HlistAddBehind` | include/hy_list.h:685-694 | the node stands right behind the given one |
| `HyHlist.HlistMoveList` | include/hy_list.h:705-712 | the whole list hangs on the new head, the old one is empty |
| `TimerSpec.StepAhead` | src/hy_timer.c:118-143 | what one turn of the loop leaves ahead of the cursor, although it edits the list it walks |
| `TimerSpec.SameSlot` | src/hy_timer.c:133-136 | a timer is linked to its own slot exactly for multiples of the slots, and then has a lap to wait unless expires is 0 |
| `TimerSpec.StepDecreases` | src/hy_timer.c:118-143 | every turn brings the end of the pass nearer if at most one zero timer is on the slot |
| `TimerSpec.PassEnds` | src/hy_timer.c:118-143 | a pass ends if and only if at most one repeating timer with expires 0 is on the slot |
| `TimerSpec.FiresDue` | src/hy_timer.c:119-128 | a pass fires exactly the entries without turns to wait, in list order, each once but for a timer with expires 0 |
| `TimerTable.TickTable` | src/hy_timer.c:118-146 | one pass takes one off every waiting time, restarts repeating timers with expires - 1, and delays late ones and those with expires 0 by a lap |
| `TimerTable.OnTimeExactly` | src/hy_timer.c:133-138 | all timers are on time if and only if no looping timer is alone and last on its slot and none with expires 0 is on it |
| `TimerTable.TickFires` | src/hy_timer.c:118-128 | a pass fires a timer as often as the table has it with nothing left to wait, and one with expires 0 up to two times more |
| `TimerTable.ZeroFiresExactly` | src/hy_timer.c:118-143 | when a repeating timer with expires 0 fires once, twice or three times in a pass |
| `TimerTable.LateExample` | src/hy_timer.c:133-138 | a concrete timer that comes back a lap late |
| `TimerRuns.TickWaits` | src/hy_timer.c:119-120 | a timer with passes to wait does not fire and waits one less |
| `TimerRuns.TickStarts` | src/hy_timer.c:121-138 | a due repeating timer fires, once unless expires is 0, and starts anew, a lap late exactly if it was the last and only one to loop or expires is 0 |
| `TimerRuns.TickEnds` | src/hy_timer.c:139-141 | a due once timer fires once and its handle is free |
| `TimerRuns.AddTable` | src/hy_timer.c:57-71 | adding adds exactly one row, with the first waiting time |
| `TimerRuns.FirstWaitExact` | src/hy_timer.c:65-68 | the first wait equals expires if and only if the current slot is 0, and is less than a lap off |
| `TimerRuns.DelTable` | src/hy_timer.c:73-97 | deleting frees the handle, removes its row and no other |
| `TimerRuns.RepeatSchedule` | src/hy_timer.c:110-147 | over any run, a repeating timer of any expires first fires at pass r, and after every firing next expires passes later, or a lap more exactly in the late cases; never late if expires is no multiple of the slots |
| `TimerRuns.EvenSchedule` | src/hy_timer.c:110-147 | for such expires it fires at r, r + expires, r + 2 * expires and at no other pass until it is deleted |
| `TimerRuns.EveryGap` | src/hy_timer.c:133-138 | whenever in a run it has fired, the passes to the next firing, told from the wheel before that pass |
| `TimerRuns.ZeroSchedule` | src/hy_timer.c:133-138 | over any run, a timer with expires 0 fires in every pass over its slot and in no other |
| `TimerRuns.FirstFiring` | src/hy_timer.c:110-147 | over any run, a timer of any kind with r passes to wait fires at pass r and not before |
| `TimerRuns.NextFiring` | src/hy_timer.c:133-138 | a repeating timer of any expires that fires now fires next after exactly expires passes, or a lap later exactly in the late cases |
| `TimerRuns.OnceSchedule` | src/hy_timer.c:110-147 | over any run, a once timer fires exactly at pass r |
| `TimerRuns.AddedTimerRuns` | src/hy_timer.c:57-71 | the schedule of a repeating timer of any expires from HyTimerAdd on |
| `TimerRuns.DeletedTimerRests` | src/hy_timer.c:73-97 | a deleted timer does not fire while its handle is not given out again |
| `TimerRuns.RunKeepsUnique` | src/hy_timer.c:57-147 | no timer is ever on the wheel twice |
| `TimerRuns.PassFiresOnce` | src/hy_timer.c:118-143 | a pass fires exactly the due timers, and each once but for one with expires 0 |
| `TimerSlots.TickSlots` | src/hy_timer.c:118-146 | a pass links the timers that fire behind what is on their slots, in the order of the calls, and leaves on its own slot those that waited, then those that loop, then one with expires 0 |
| `TimerOrder.CalledFirst` | src/hy_timer.c:68-138 | over any run, a timer with r passes to wait that stands in front of another one on its slot is called at pass r, and the other one not before it in that pass |
| `TimerOrder.AddedLaterCalledLater` | src/hy_timer.c:68 | a timer is called before every one that is added later and falls due in the same pass |
| `TimerOrder.AddedInOrder` | src/hy_timer.c:57-71 | of two timers added with the same expires and no pass between, both are called first in the same pass, in the order of adding, and if they repeat in every later one |
| `TimerOrder.RelinkedLaterCalledLater` | src/hy_timer.c:133-138 | a timer that is waiting is called before every one linked again meanwhile that falls due in the same pass |
| `TimerOrder.RelinkedTogether` | src/hy_timer.c:133-138 | timers linked again in one pass, to another slot or the same, are called in the same order when the first is due again |
| `TimerOrder.OrderIsKept` | src/hy_timer.c:110-147 | over any run, two repeating timers with the same expires that are due together are called in the same passes and always in the same order |
| `TimerWheel.TimerService.constructor` | src/hy_timer.c:175-195 | an empty wheel at slot 0 |
| `TimerWheel.TimerService.Add` | src/hy_timer.c:57-71 | the linked lists after adding are those of the model |
| `TimerWheel.TimerService.Del` | src/hy_timer.c:73-97 | the search unlinks the entry the model deletes |
| `TimerWheel.TimerService.Visit` | src/hy_timer.c:119-142 | one turn on the linked list is one step of the model, and the saved successor stays the right one |
| `TimerWheel.TimerService.RunPass` | src/hy_timer.c:118-146 | the walk over the list under edit is the tick of the model, and it ends |
| `TimerWheel.TimerService.Drain` | src/hy_timer.c:157-164 | all slots are empty afterwards |
| `Fifo.NumTo2N2` | src/hy_fifo.c:245-255 | the least power of two not below the number, for numbers up to 2^31; 0 above |
| `Fifo.ChooseSize` | src/hy_fifo.c:263-268 | the size is a power of two that holds the request if and only if the request is at most 2^31 |
| `Fifo.MaskStep` | src/hy_fifo.c:97-98 | a masked wrapping counter moves along the ring like a remainder |
| `Fifo.WindowWritten` | src/hy_fifo.c:132-136 | bytes written behind the window extend it and leave it alone |
| `Fifo.CopyIn` | src/hy_fifo.c:133-136 | two copies write the data around the end of the buffer |
| `Fifo.CopyOut` | src/hy_fifo.c:98-101 | two copies read the window around the end of the buffer |
| `Fifo.HyFifo.constructor` | src/hy_fifo.c:257-281 | an empty queue that holds the request, or a buffer of no bytes exactly if its lower 32 bits exceed 2^31 |
| `Fifo.HyFifo.Put` | src/hy_fifo.c:108-141 | appends exactly the first min(len, free) bytes, counters wrapping |
| `Fifo.HyFifo.GetDataCom` | src/hy_fifo.c:79-104 | copies the first min(len mod 2^32, used) bytes |
| `Fifo.HyFifo.Get` | src/hy_fifo.c:143-155 | removes and delivers exactly the first min(len, used) bytes |
| `Fifo.HyFifo.Peek` | src/hy_fifo.c:157-167 | delivers them and removes nothing |
| `Fifo.HyFifo.UpdateOut` | src/hy_fifo.c:169-182 | removes them without telling the used counter |
| `Fifo.HyFifo.Clean` | src/hy_fifo.c:220-228 | the queue is empty, the used counter keeps its value |
| `Fifo.HyFifo.GetInfo` | src/hy_fifo.c:184-204 | each of the three answers as a number, and when it is right, both ways |
| `Fifo.HyFifo.PeekThenDrop` | src/hy_fifo.c:157-182 | peek followed by an update is a get |
| `Fifo.CutLengthExactly` | src/hy_fifo.c:79-95 | the 32-bit cut of the length is harmless if and only if nothing is missing below it |
| `Bits.MaskIsMod` | src/hy_fifo.c:97 | masking with a power of two less one is the remainder |
| `Bits.IsPowerOf2Exactly` | include/hy_utils.h:116 | the macro is true exactly for the powers of two |
| `SpscFifo.CountersTell` | src/hy_fifo.c:95-130 | the wrapped counters tell the bytes stored and the room left at every step |
| `SpscFifo.PutByteKeepsUnread` | src/hy_fifo.c:133-136 | a byte being copied in overwrites no unread byte |
| `SpscFifo.NextInv` | src/hy_fifo.c:79-141 | every step of either thread keeps the invariant |
| `SpscFifo.RunIsSafe` | src/hy_fifo.c:81-93 | with one snapshot of the other counter, in every interleaving the bytes got are a prefix of the bytes accepted |
| `SpscFifo.SnapshotNeverOverruns` | src/hy_fifo.c:117-129 | with one snapshot no put or get runs past the caller's buffer |
| `SpscFifo.RunKeeps` | src/hy_fifo.c:79-141 | with the compiled macro the same prefix property holds up to an overrun |
| `SpscTransfer.PutAccepts` | src/hy_fifo.c:130-138 | with one snapshot a put that runs to its end has stored exactly the first min(len, free) bytes, for a room free it had at some point, whatever the other thread did |
| `SpscTransfer.GetTakes` | src/hy_fifo.c:79-104 | a get likewise takes exactly the first min(len, used) bytes |
| `SpscOverrun.PutCanOverrunExactly` | src/hy_fifo.c:130 | with the compiled macro, whatever the other thread is at, a put can run past its data if and only if free <= len < size and that thread's get is not about to overrun |
| `SpscOverrun.GetCanOverrunExactly` | src/hy_fifo.c:95 | with the compiled macro, whatever the other thread is at, a get can run past the caller's buffer if and only if used <= len < size and that thread's put is not about to overrun |
| `SpscOverrun.SameSizeCanOverrunExactly` | src/hy_fifo.c:95-130 | with puts and gets of one size only, whatever the other thread is at, a put can overrun if and only if free <= len, and a get if and only if used <= len, and the other thread is not about to overrun |
| `UseCount.PolledExactly` | src/hy_fifo.c:138-152 | after any run of both threads from the empty FIFO the used length read is the bytes stored if and only if the changes lost cancel out, and always while the stores stay apart |
| `UseCount.LostUpdate` | src/hy_net_wired.c:137-139 | a run after which a whole record is stored and the used length read is 0 |
| `UseCount.LostRemoval` | src/hy_fifo.c:138-152 | a run after which one record is stored and two are counted |
| `LedQueue.SizeIs64` | src/hy_net_wired.c:200-202 | the request for six records becomes 64 bytes |
| `LedQueue.DecodeEncode` | src/hy_net_wired.c:119-122 | a record is read back from its bytes |
| `LedQueue.LedFifo.SetLed` | src/hy_net_wired.c:115-123 | a record is stored whole or, with eight waiting, not at all |
| `LedQueue.LedFifo.TakeLed` | src/hy_net_wired.c:137-161 | the oldest record is got whole, nothing from an empty queue |
| `LedQueue.RecordCanTearExactly` | src/hy_net_wired.c:122-161 | with both threads at work on records, the put of a record can overrun if and only if there is room for one at most, and the get of one if and only if one at most is waiting, unless the other thread is about to overrun |
| `AtTags.MatchIsPrefix` | src/hy_at_utils.c:184 | memcmp with the cleared buffer finds a string exactly if it is in view |
| `AtTags.HeadTagFinds` | src/hy_at_utils.c:175-191 | a string found is in the table and in view; none found means that none is there |
| `AtTags.HeadTagExactly` | src/hy_at_utils.c:175-191 | a string is found if and only if it is a prefix of the view and no earlier entry fits or delays; more bytes are waited for if and only if an entry is longer than the view, agrees in the first two of at least two bytes, and no earlier one fits or delays |
| `AtTags.ScanKeepsTags` | src/hy_at_utils.c:192-208 | at no byte dropped by the first scan does any catch string begin, whatever follows |
| `AtTags.HeadLosesExactly` | src/hy_at_utils.c:432-442 | the head scan loses the start of a catch string if and only if the byte is alone, no catch string and not the prompt |
| `AtHeader.HeaderParsed` | src/hy_at_utils.c:280-301 | an accepted header that is in view is "+IPD,", one to three digits of the stated value, and a colon or zero byte |
| `AtHeader.HeaderIs` | src/hy_at_utils.c:282-301 | a header byte by byte: 43 73 80 68 44, one to three decimal digits of the stated value, and 58 or 0 |
| `AtHeader.HeaderTakenExactly` | src/hy_at_utils.c:285-334 | a header is accepted if and only if eight bytes or more are in view and begin with a whole header of a frame that is not empty, or the view is eight bytes that end in its three digits |
| `AtHeader.IpdUndefinedExactly` | src/hy_at_utils.c:285-346 | a header leads to a negative copy or an overrun of the digits' buffer if and only if it is cut off behind its third digit in eight bytes or its number has eight characters or more |
| `AtFrames.TurnDefinedExactly` | src/hy_at_utils.c:390-557 | a turn is not defined if and only if a command is due and there is none, or a header or a signal text in view is of the bad kinds, told by the bytes |
| `AtFrames.TurnEffect` | src/hy_at_utils.c:390-530 | every turn takes bytes from the front only and has one of six effects on the frame |
| `AtFrames.ReplyTakesItsText` | src/hy_at_utils.c:443-481 | a reply takes exactly the text of its catch string out, and which state it reports and leads to |
| `AtQueue.QueueShrinksExactly` | src/hy_at_utils.c:458-481 | a command leaves the queue exactly on the last reply that counts, a failed last try or a reset, and the order stays |
| `AtQueue.TurnKeepsInv` | src/hy_at_utils.c:369-628 | every turn keeps: parsing exactly with a buffer, frame_sum below its length, the tag in front, the queue counters |
| `AtQueue.ResendsExactly` | src/hy_at_utils.c:458-468 | two turns after a failure a command is sent, and there is one if and only if it was not the only one's last try |
| `AtLaws.ViewIs` | src/hy_at_utils.c:391-404 | a turn looks at the longest front of the FIFO of at most 200 bytes and none behind a begun frame |
| `AtLaws.ScanExactly` | src/hy_at_utils.c:192-208 | the scan drops exactly the bytes before the first one in view that a catch string begins with |
| `AtLaws.HeadExactly` | src/hy_at_utils.c:432-442 | the deciding entry leads to its state or to waiting; without one a lone '>' leads to the data, and any other byte is dropped |
| `AtLaws.OkExactly` | src/hy_at_utils.c:469-481 | an OK takes its text out, is reported, counts once against the first command and frees the engine if and only if no data is due |
| `AtLaws.FailExactly` | src/hy_at_utils.c:458-468 | a failure empties the FIFO and costs one try; only the last one is reported as a closed connection and drops the command |
| `AtLaws.PlainExactly` | src/hy_at_utils.c:443-485 | what READY, busy and the prompt take out, report and lead to |
| `AtLaws.SignalExactly` | src/hy_at_utils.c:213-278 | a signal text is delivered up to the first "OK" if and only if 16 bytes for CSQ, 38 for CWJAP are in view and the "OK" is not at its front |
| `AtLaws.DeliveredFrameEnds` | src/hy_at_utils.c:486-511 | after any delivery the engine is idle without a begun frame, queue and timing as before |
| `AtLaws.CleanedIsCreated` | src/hy_at_utils.c:151-164 | a reset leaves the engine as it was created |
| `AtLaws.IdleExactly` | src/hy_at_utils.c:592-616 | what an idle turn does for a FIFO with bytes, an empty queue, a command under way, a free engine and a command whose time is up |
| `AtLaws.AcceptedExactly` | src/hy_at_utils.c:630-654 | a command is refused if and only if the queue is at its limit; else it is last, with two replies due if it has data and commands are answered apart |
| `AtLaws.PutExactly` | src/hy_at_utils.c:656-671 | all bytes are accepted, or as many from the front as fill the FIFO |
| `AtRuns.EventKeeps` | src/hy_at_utils.c:303-671 | every event keeps stored prefix, places and order of all frames |
| `AtRuns.TurnKeeps` | src/hy_at_utils.c:303-367 | a turn keeps the invariant, and a begun frame goes on or is delivered |
| `AtRuns.FramesAreExact` | src/hy_at_utils.c:303-367 | in every run, up to the first turn that is not defined, consumed bytes and FIFO are the accepted input, each data frame is exactly the bytes behind its header, and no byte is delivered twice |
| `AtRuns.BegunFrameArrives` | src/hy_at_utils.c:390-398 | a begun frame arrives once its last byte is accepted and the FIFO read out, however the input is cut |
| `AtRuns.WholeHeaderIsTaken` | src/hy_at_utils.c:323-353 | after a turn that finds a whole header with eight bytes in view, its frame is begun or delivered, at its place in the input |
| `AtRuns.HeaderArrives` | src/hy_at_utils.c:303-367 | the frame of such a header arrives in every run that accepts its last byte and reads the FIFO out |
| `AtRuns.TwoCutsOneFrame` | src/hy_at_utils.c:303-367 | two ways to cut up one input deliver the same frame behind the same header |
| `AtCut.CutHeaderIsReached` | src/hy_at_utils.c:337-346 | the eight bytes "+IPD,123" and four turns, the fourth of which is not defined |
| `AtStops.TurnStaysExactly` | src/hy_at_utils.c:424-515 | a turn with bytes in view leaves the engine as it is if and only if the switch has no case for its state, the connection was closed, or a head or signal waits for more |
| `AtStops.HaltedTurn` | src/hy_at_utils.c:450-515 | a halted engine's turn is defined, changes and sends nothing, and reports a closed connection again |
| `AtStops.HaltsForGood` | src/hy_at_utils.c:390-530 | over any run without a cleaning a halted engine reads, delivers and sends nothing more, whatever arrives |
| `AtStops.ClosedHalts` | src/hy_at_utils.c:450-455 | a closed connection halts the engine if a byte is behind its reply |
| `AtRuns.QueueIsBounded` | src/hy_at_utils.c:630-654 | the queue is the last commands accepted, in order, and never above its limit |
| `AtFlow.SendingEngages` | src/hy_at_utils.c:545-557 | sending hands over the text of the first command |
| `AtFlow.OneCommandAtATime` | src/hy_at_utils.c:592-615 | after a command is sent, none is sent before its closing reply, a failure or its time limit |
| `AtFlow.DataFollowsPrompt` | src/hy_at_utils.c:482-485 | the data of a command is sent exactly after its prompt was taken |
| `AtFlow.TimeLimitExactly` | src/hy_at_utils.c:597-611 | an idle turn reports a closed connection if and only if the first command's last try has run out of time; the queue stays, and the count of tries wraps around to 255 |
| `AtFlow.ClosedCommandIsSentAgain` | src/hy_at_utils.c:597-611 | three turns after that report the command is sent again |
| `AtProgress.SentCommandWaits` | src/hy_at_utils.c:541-563 | over any run from the turn that sends at time t, turns up to t + 10 modulo 2^32 only wait, and the first later one reads |
| `AtProgress.ReplyComes` | src/hy_at_utils.c:424-441 | over any run without a cleaning, a catch string at the front that decides comes one stage nearer with every turn, and nothing is taken or changed before its own |
| `AtProgress.CommandIsAnswered` | src/hy_at_utils.c:469-563 | from sending a command over its waiting to the reply OK that arrived meanwhile: after the first turn later than 10 ms, three more count it off, whatever else arrives and is ordered |
| `AtProgress.DataIsAnswered` | src/hy_at_utils.c:469-575 | the same from handing over the data of a command on: the reply to it always leaves the engine free |
| `AtProgress.NextCommandIsSent` | src/hy_at_utils.c:541-616 | a free engine with nothing to read sends the next command in three turns |
| `AtProgress.FrontFrameArrives` | src/hy_at_utils.c:303-441 | a whole header at the front of the FIFO of an idle or scanning engine is reached after the turns its stage tells, and its frame arrives over any run |
| `AtEngine.ProcessIsTurns` | src/hy_at_utils.c:580-628 | a call is a run of turns with the same frames and end state |
| `AtEngine.ProcessReports` | src/hy_at_utils.c:580-628 | a call reports and sends exactly what its first turn does, however often its loop goes round |
| `AtEngine.ReadsOn` | src/hy_at_utils.c:390-530 | a call with a begun frame reads on exactly to its last byte, or empties the FIFO into it |
| `AtUtils.FindStart` | src/hy_at_utils.c:193-207 | the first byte that some catch string starts with |
| `AtUtils.FindHead` | src/hy_at_utils.c:175-190 | the first table entry that is a prefix of the view or delays, told on prefixes, and none if there is none |
| `AtUtils.GetSignalStr` | src/hy_at_utils.c:214-234 | the position of the first "OK", or 0 |
| `AtUtils.GetIpdDataLen` | src/hy_at_utils.c:280-301 | lengths of header and frame |
| `AtUtils.Context.constructor` | src/hy_at_utils.c:739-793 | an idle engine with an empty FIFO and queue |
| `AtUtils.Context.DestroyCmdList` | src/hy_at_utils.c:135-149 | the first command, or all, leave the queue and the count |
| `AtUtils.Context.DestroyClean` | src/hy_at_utils.c:151-164 | the state after a reset |
| `AtUtils.Context.Switch` | src/hy_at_utils.c:424-515 | the switch over the read states is the model's |
| `AtUtils.Context.StoreFrame` | src/hy_at_utils.c:337-353 | a new frame is delivered whole or its first part stored |
| `AtUtils.Context.MoreFrame` | src/hy_at_utils.c:354-364 | further bytes are stored behind the first ones, the full frame is delivered |
| `AtUtils.Context.ReadHandle` | src/hy_at_utils.c:369-533 | the read loop over the FIFO ends and is the model's |
| `AtUtils.Context.WriteHandle` | src/hy_at_utils.c:535-578 | the write states are the model's |
| `AtUtils.Context.IdleHandle` | src/hy_at_utils.c:592-616 | the idle case is the model's |
| `AtUtils.Context.Process` | src/hy_at_utils.c:580-628 | a call is the model's, with its frames and writes |
| `AtUtils.Context.WriteCommand` | src/hy_at_utils.c:630-654 | the command is queued, or refused at the limit |
| `AtUtils.Context.PutData` | src/hy_at_utils.c:656-671 | the bytes that have room are accepted |
| `AtUtils.Context.Clean` | src/hy_at_utils.c:673-681 | the engine is as created but for its configuration |
| `HashSpec.UtilsHashGenerate` | src/utils_hash.c:49-64 | the hash is the polynomial in 31 modulo 2^32 |
| `HashSpec.HashOfMore` | src/utils_hash.c:55-63 | one more character: 31 times the hash plus the signed character, modulo 2^32, from 0 |
| `HashSpec.HashOfKey1` | src/utils_hash.c:49-64 | "key1" has hash 3288498 |
| `HashSpec.KeyToIndex` | src/utils_hash.c:66-85 | the index is that of the exact product, despite 32-bit wrap-around, and below the bucket count |
| `HashSpec.IndexIsTopBits` | src/utils_hash.c:81-84 | the index is the five leading bits of the product as a signed number, masked with the bucket count less one |
| `HashSpec.IndexOfKey1` | src/utils_hash.c:66-85 | "key1" has bucket 6 of 16 |
| `HashSpec.WrapProduct` | src/utils_hash.c:77-79 | wrapping before a multiplication changes nothing |
| `HashSpec.UsesFewBuckets` | src/utils_hash.c:81-82 | any set of keys uses 32 buckets at most |
| `HashSpec.AddRefinesMap` | src/utils_hash.c:310-329 | adding as meant sets one id of the map, and no bucket has a hash twice; as written it does so if the id is not in the map, and otherwise is not defined |
| `HashSpec.DelRefinesMap` | src/utils_hash.c:331-343 | deleting clears one id of the map and no other |
| `HashSpec.GetIsLastAdded` | src/utils_hash.c:310-362 | a history as written is defined if and only if no id is added that get would find, and then get finds the value last added and not deleted since |
| `HashSpec.WrittenExactly` | src/utils_hash.c:275-329 | and then the whole table is the one that is meant |
| `HashSpec.MeantIsLastAdded` | src/utils_hash.c:310-362 | with values replaced as meant, get finds the value last added and not deleted since, after any history |
| `HashSpec.ReplaceIsNotDefined` | src/utils_hash.c:275-290 | two additions for one key are a history that is not defined |
| `HashTable.FindItem` | src/utils_hash.c:148-172 | the first item with the hash, or none |
| `HashTable.HashContext.constructor` | src/utils_hash.c:174-202 | all buckets are empty |
| `HashTable.HashContext.ReplaceItemVal` | src/utils_hash.c:275-290 | as it is meant: the value of one item is replaced, nothing else |
| `HashTable.HashContext.AddItemToList` | src/utils_hash.c:292-302 | a new item is first in its bucket, the others stay |
| `HashTable.HashContext.DelItemFromList` | src/utils_hash.c:304-308 | one item leaves its bucket, the others stay |
| `HashTable.HashContext.UtilsHashItemAdd` | src/utils_hash.c:310-329 | as written: the linked buckets after adding are the model's, and the call is defined if and only if the key was not in the table |
| `HashTable.HashContext.AddAsMeant` | src/utils_hash.c:310-329 | with a value replaced as meant, the linked buckets after adding are the model's |
| `HashTable.HashContext.UtilsHashItemDel` | src/utils_hash.c:331-343 | the same for deleting, with the flag whether there was one |
| `HashTable.HashContext.UtilsHashItemGet` | src/utils_hash.c:350-362 | the value of the map, if the key is in it |
| `Words.WordOfBytes` | src/hy_md5sum.c:55-67 | to_int32 undoes to_bytes |
| `Words.BytesOfWord` | src/hy_md5sum.c:55-67 | to_bytes undoes to_int32 |
| `Md5Spec.IndexFormula` | src/hy_md5sum.c:111-123 | the index computed in the loop is the one RFC 1321 lists for each operation |
| `Md5Spec.FByBits` | src/hy_md5sum.c:111-113 | F takes the bits of y where x is set and of z elsewhere |
| `Md5Spec.GByBits` | src/hy_md5sum.c:114-116 | G takes the bits of x where z is set and of y elsewhere |
| `Md5Spec.HByBits` | src/hy_md5sum.c:117-119 | H is the parity of the three bits |
| `Md5Spec.IByBits` | src/hy_md5sum.c:120-122 | I by its truth table |
| `Md5Spec.PaddedEnds` | src/hy_md5sum.c:86-96 | the message, one bit, zeros and its length in bits as eight bytes, the low-order one first |
| `Md5Spec.BlocksChain` | src/hy_md5sum.c:78-135 | the initial registers, and every block adds the result of its 64 operations to the registers before it |
| `Md5Vector.DigestOfAbc` | src/hy_md5sum.c:69-143 | the digest of "abc" is the one in section A.5 of RFC 1321, 900150983cd24fb0d6963f7d28e17f72 |
| `Md5Spec.PaddedLength` | src/hy_md5sum.c:86-96 | the padded message is whole blocks and as short as it can be |
| `Md5Spec.PaddingIsInjective` | src/hy_md5sum.c:86-96 | different messages under 2^61 bytes are padded differently |
| `Md5.ShiftTable` | src/hy_md5sum.c:46-50 | the table of shifts repeats the four of each round |
| `Md5.StepIsOperation` | src/hy_md5sum.c:124-128 | one step of the register-renaming loop is one operation on ABCD, DABC, CDAB or BCDA |
| `Md5.Steps` | src/hy_md5sum.c:105-129 | the 64 steps are the four rounds |
| `Md5.NewLenLeast` | src/hy_md5sum.c:86 | new_len is the least length beyond the message that is 56 modulo 64 |
| `Md5.Pad` | src/hy_md5sum.c:86-96 | the buffer holds the padded message with the bit length |
| `Md5.HashChunks` | src/hy_md5sum.c:99-135 | the loop covers exactly the blocks of the buffer and folds over them |
| `Md5.HyMd5sum` | src/hy_md5sum.c:69-143 | the digest is the MD5 of the message |
| `Sort.Partition` | src/hy_sort.c:67-98 | the range is rearranged around the element at the returned position, none is lost |
| `Sort.HySortQuick` | src/hy_sort.c:100-117 | the range is a sorted permutation, for any total preorder |
| `Sort.HySortBubble` | src/hy_sort.c:42-65 | the array is a sorted permutation with equal elements in their old order |
| `Sort.StableSortIsUnique` | src/hy_sort.c:54-62 | sorted with the classes in order determines the result |
| `ListSort.GetNodePtr` | example/hy_list_test.c:53-60 | the node at the index, running on around the ring |
| `ListSort.SwapNodePtr` | example/hy_list_test.c:76-88 | exactly the two nodes change places, adjacent or apart |
| `ListSort.GetPartition` | example/hy_list_test.c:90-118 | the nodes are parted by id around the returned index |
| `ListSort.SortNodes` | example/hy_list_test.c:120-128 | the nodes are relinked in order of their ids, none is lost, those outside the range stay |
| `Codec.HyHex2Int2Str` | src/hy_utils.c:62-69 | three digits for every byte, the last ones cut off where the buffer ends |
| `Codec.HyStr2Int2Hex` | src/hy_utils.c:71-83 | one byte for every three characters, up to the room there is |
| `Codec.BytesReadBack` | src/hy_utils.c:62-83 | byte strings of any length are read back |
| `Codec.HyDec2BitStr` | src/hy_utils.c:100-112 | the lowest bits as text, the highest first, the last one cut off where the buffer ends, and zeros behind |
| `Codec.HyBitStr2Dec` | src/hy_utils.c:85-98 | the number a string of bits stands for |
| `Codec.BitsReadBackExactly` | src/hy_utils.c:85-112 | a number is read back if and only if it fits into the bits asked for |
| `Codec.HyIpInt2Str` | src/hy_utils.c:46-60 | the dotted address and zeros, in any buffer that holds it, so in 16 bytes |
| `Codec.CanonicalIsUnique` | src/hy_utils.c:56-57 | a number has only one text of digits without a zero in front |
| `Codec.DottedIsUnique` | src/hy_utils.c:46-60 | the text written is the only one of four such numbers below 256 that stands for the address with the first as its highest byte |
| `Codec.HyIpStr2Int` | src/hy_utils.c:32-44 | the numbers up to the first mismatch and what the array held behind them, cut to bytes, in one word |
| `Codec.AddressReadsBack` | src/hy_utils.c:32-60 | every 32-bit address is read back |
| `TextLaws.AtoiReads` | src/hy_utils.c:77-93 | an optional sign and the digits behind it, 0 without digits |
| `TextLaws.CharIsAtoi` | src/hy_utils.c:91-93 | a character of a bit string counts as atoi reads it by itself |
| `TextLaws.ScanWordReads` | src/hy_utils.c:76 | "%3s" skips white space and stores up to three characters |
| `TextLaws.ByteIsCut` | src/hy_utils.c:76-77 | three digits give their value modulo 256 |
| `TextLaws.ScanIntReads` | src/hy_utils.c:38 | "%d" skips white space and reads an optional sign and the digits |
| `TextLaws.ScanIntFails` | src/hy_utils.c:38 | and anything without a digit there is no number |
| `TextLaws.PartialAddress` | src/hy_utils.c:32-44 | of "10.1x" two numbers are read, the other two places keep what they held |
| `TextLaws.OrByBits` | src/hy_utils.c:93 | the or of two numbers bit by bit |
| `TextLaws.AndByBits` | src/hy_utils.c:106 | the and of two numbers bit by bit |
| `TextLaws.BinaryIs` | src/hy_utils.c:85-98 | a bit string one longer has twice the value and its last bit |
| `TextLaws.BitStringIs` | src/hy_utils.c:100-112 | each character of a bit string is one bit, the highest first |

## Left out

- Threads, mutexes, `select`, `usleep`: a tick, an add, a delete, a put and a turn of the AT engine
  are atomic steps. Only the FIFO is taken apart into the steps of two threads.
- Sockets, serial ports, signals, directories, dynamic loading, files, logging and dumps: output and
  plumbing. `src/hy_cjson.c` rests on a library that is not part of this model.
- The LED blink counters of `_led_loop_cb`: they are not reset on a change of mode.
- Failure of malloc. A new timer gets its address as a parameter, which runs require not to be on
  the wheel. Freed memory is an object that no list leads to.
- A run of timers whose next pass finds two repeating timers with `expires` 0 on its slot goes no further:
  that pass does not end (`PassEnds`).
- Poison values are null or a value of their own; `container_of` is the field `entry`; callbacks are
  recorded in the order of their calls and not run.
- Fifo.HyFifo.UpdateOut: requires at most 1024 bytes to drop, because they pass through a buffer of that size.
- ListSort.SortNodes: requires the index `high` to be that of an entry. The caller in `example/hy_list_test.c:143` passes the number of entries, which is the index of the list head.
- HashTable.HashContext.ReplaceItemVal: states what is meant, a replaced value; `UtilsHashItemAdd` says
  what is written.
- The final zero of hash values: a stored value has one, but `UtilsHashItemGet` does not copy it; values
  are strings of their own length here.
- `src/hy_at_utils.c` is written against older interfaces: `BufUnion` is an array of its length, filled
  with zeros, and the used length of the FIFO is `in - out`. Both callbacks are taken to be set. The
  clock is read once in a call; the waits for more bytes inside the read loop are places between
  turns where bytes may arrive.
- AtUtils.Context.Process: requires that the turn is defined by the language, as `TurnDefinedExactly`
  tells; nothing is said of a run from its first other turn on.
- AtUtils.Context.constructor: requires that a catch string has 1 to 200 bytes, the size of the buffer it is
  compared with, and no zero byte, stands for a reply state, and for the frame state is "+IPD,".
- MD5 constants are taken as given, not derived from sines. Messages leave room for the padding in
  the size type.
- Sort.HySortBubble: requires fewer than 2^32 elements, because its loop counters have 32 bits.
- Codec.HyIpStr2Int: what the array held before is a parameter; a number too large for int is not
  modelled.
- Codec.HyHex2Int2Str: requires that at most the last text does not fit; with less room the size passed
  to snprintf wraps around.
- Codec.HyDec2BitStr: requires the same of its buffer, and at most 32 bits to shift by.
- Codec.HyIpInt2Str: requires room for the text; with less the code writes its last zero outside.
- `src/hy_bit.c`, `src/hy_string.c`, `src/hy_math.c`, `src/hy_mem.c`, `include/hy_module.h`: they
  would only add easy members. UtilsHashDestroy and HyAtUtilsDestroy free what the drain of the timer
  wheel shows for lists.
