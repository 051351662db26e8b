# Verified models of the MUD's core data structures and protocols

A Dafny 4.11 model of the parts of this Diku/ROM-family MUD whose correctness does not
follow from reading one function: pointer structures, a lock protocol, a bounded output
pipe, and tables that are saved, edited and loaded.

| area | files | what is modelled |
|---|---|---|
| intrusive queues | `TailQueue`, `TailQueueRuns`, `SinglyTailQueue`, `LinkList`, `CircleQueue` | the macros of `src/queue.h` on a heap of linked records. A `type **` is a cell, either a head's first word or an entry's next word, so links to "the previous next field" and reading an entry as if it were a head are modelled as such |
| reverse-DNS cache | `RdnsCache`, `RdnsLocks`, `RdnsInvariants`, `RdnsMemory`, `RdnsSleep`, `RdnsExpiry`, `RdnsTheorems`, `RdnsReturns`, `RdnsShutdown`, `RdnsSchedules` | `src/rdns_cache.c` as a state machine with one step per lock operation and per loop round, any number of adders, the lookup thread and the destroyer. Addresses may be reused, an unresolved node's `ttd` is arbitrary, waits may wake spuriously |
| compressed output | `Mccp`, `MccpSession`, `MccpLife`, `MccpClient` | `src/mccp.c` between two oracles: what each `write` accepts and what `deflate` answers |
| flags | `FlagBits`, `FlagText`, `Text` | the update loop of `do_flag`, `flag_value`, `fflag_string`, `flag_lookup`, `one_argument` |
| skill groups | `FileText`, `GroupFile`, `GroupRoundTrip`, `GroupByHand`, `GroupEditor`, `GroupSession` | the group file character by character, its loader with the staging queue, and the editor |
| arena | `ArenaFile`, `ArenaRoundTrip`, `ArenaExact`, `Arena`, `ArenaSession` | the score files character by character, the lists in memory with the score free list, and whole sessions of the arena command |
| chat books | `ChatLists`, `ChatBooks`, `ChatEditor`, `ChatRuns` | the linked books, keys and replies of `src/eliza.c` with their three free lists, and any run of the commands of the loader and of the editor in `src/olc_act.c` |
| mobprog lister | `ProgFormat` | line splitting and indentation of `format_code_output` |

`Seqs` holds the sequence vocabulary. Code that the source writes as loops over fields is
a method proved against a specification function; the theorems are lemmas about those
functions. Ghost parameters of a method (`s`, `k`) name the sequence a structure holds and
a position in it.

What the code does not guarantee is stated as such, with the exact condition or a schedule:

- An add to the DNS cache can be slept on if `malloc` hands out the address of a purged
  node that `last_start` still holds; without such a reuse it cannot.
- `first_to_expire` uses 0 for "none", so the lookup thread can sleep past an expiry exactly
  while a resolved entry with the stamp 0 is in the list. That takes a call of
  `rdns_cache_set_ttl` with a value that is not positive.
- `add_to_list` returns `newitem->host_name` after giving up its locks; the node is still its
  own exactly if no round of the purge and no step of the shutdown has freed it by then.
- Shutdown can hang, because `rdns_terminate` is tested outside the mutex and is also where
  the lookup thread's answer goes. Some run behind the broadcast strands the destroyer exactly
  if the lookup thread has already exited and its 2 has been overwritten with the 1 (as when
  signals could not be blocked), or if it stands between the test and the mutex,
  `first_to_expire` is 0, and the list's head is `last_start` or can become it again through a
  reused address. In the first case nothing ever ends it, in the second only a wake-up does;
  with `first_to_expire` set the wait ends by itself and there is only a delay.
- `writeCompressed` returns TRUE when deflate has taken the input, even if deflate's output
  did not fit; the rest waits inside deflate for the next call, also when the buffer has
  drained completely.
- `compressStart` does not look at how much of its announcement the socket takes, and never
  sends the rest.
- `compressEnd` drops what the socket does not take. Its FALSE is ignored; the descriptor stays
  in use, and is sound exactly if no byte went out before a failed write: those bytes are still
  in the buffer and go out again.
- TAILQ_REMOVE leaves the removed entry's links in place. An immediate second call is
  harmless; a later one cuts out whatever has been put between the old neighbours since, and if
  they have swapped places it closes a cycle. Once the old predecessor has left the queue, the
  head holds a sequence afterwards exactly if the old successor is there and outside the queue.
- `flag_value` misreads a name that abbreviates an earlier entry.
- Toggling a non-settable bit that is off switches it on, and it stays on.
- `delete_challenger` frees further scores only as far as the score free list happens to
  hold scores of the same times; the others are left behind.

The text helpers `str_cmp`, `str_prefix`, `smash_tilde`, `capitalize` and the `fread_` readers
are those of `src/db.c`, `one_argument` is that of `src/interp.c`; rows about them cite the
lines that use them. The chat commands are those of `src/olc_act.c` (lines 7410-7700) and of the loader in
`src/eliza.c`, the arena commands those of `src/act_wiz.c` (lines 9024-9155); their rows cite the functions they call.
So it is with the uncompressed write and the negotiation of `src/comm.c` (lines 988-1010, 1425-1456, 2604-2672).

Environment assumptions: `time(NULL)` is never negative; C strings have no NUL inside; letters of the source's
cp1251 character set appear as Unicode letters; file and memory operations that the source
answers with `exit` succeed.

## Model

| member | source | states |
|---|---|---|
| TailQueue.ChainIsUnique | src/queue.h:364-377 | The links of a tail queue determine its contents: no head satisfies the heap invariant (finite acyclic chain, every `tqe_prev` the one cell pointing at its element, `tqh_last` the one NULL cell) for two different sequences. |
| TailQueue.LastIsLast | src/queue.h:454-455 | Reading the record at `tqh_last` as a head gives the true last element, NULL for an empty queue. |
| TailQueue.PrevIsPredecessor | src/queue.h:459-460 | Reading the record at `tqe_prev` as a head gives the true predecessor, NULL for the first element. |
| TailQueue.Foreach | src/queue.h:395-398 | Visits every element once, in order. |
| TailQueue.ForeachReverse | src/queue.h:405-408 | Walking with LAST and PREV alone visits the exact reverse of FOREACH. |
| TailQueue.Init | src/queue.h:415-418 | Makes any head a valid empty queue. |
| TailQueue.InsertHead | src/queue.h:437-445 | Refines prepending and keeps the heap invariant. |
| TailQueue.InsertTail | src/queue.h:447-452 | Refines appending and keeps the heap invariant, the store going through the stored cell address. |
| TailQueue.InsertAfter | src/queue.h:420-428 | Refines insertion behind any member. |
| TailQueue.InsertBefore | src/queue.h:430-435 | Refines insertion in front of any member without consulting the head. |
| TailQueue.Remove | src/queue.h:462-471 | Cuts out exactly the stretch between the cell the element's stale or live `tqe_prev` names and the element its `tqe_next` names: the member itself, nothing on an immediate second call, and whatever was put between since on a later one; the element's own links stay. |
| TailQueue.RemoveSwapped | src/queue.h:462-471 | A stale second call after the element's old neighbours have swapped places closes a cycle, and the head then holds no sequence at all. |
| TailQueue.RemoveOrphaned | src/queue.h:462-471 | A stale second call after the old predecessor has left the queue: the head holds no sequence at all exactly if the old successor is NULL or in the queue; otherwise it holds what it held. |
| TailQueue.MemberLinks | src/queue.h:462-471 | For a member that stretch is the member alone. |
| TailQueue.Concat | src/queue.h:386-393 | Refines concatenation and leaves the second queue valid and empty. |
| TailQueueRuns.Execute | src/queue.h:386-471 | On a heap of any number of queues each macro refines the matching update of one queue and every other queue keeps its contents and its invariant. |
| TailQueueRuns.Run | src/queue.h:386-471 | After any legal run of macros every head holds what the run computes on sequences. |
| TailQueueRuns.RunAndWalk | src/queue.h:395-471 | After any legal run the two traversals of a queue are exact reverses of each other and of the computed sequence. |
| SinglyTailQueue.Last | src/queue.h:254-258 | Subtracting the field offset from `stqh_last` gives the last element, NULL when empty. |
| SinglyTailQueue.Foreach | src/queue.h:221-224 | Visits every element once, in order. |
| SinglyTailQueue.Init | src/queue.h:231-234 | Makes any head a valid empty queue whose tail pointer is its own first cell. |
| SinglyTailQueue.InsertHead | src/queue.h:242-246 | Refines prepending; the tail pointer still names the one NULL next cell. |
| SinglyTailQueue.InsertTail | src/queue.h:248-252 | Refines appending through the tail pointer. |
| SinglyTailQueue.InsertAfter | src/queue.h:236-240 | Refines insertion behind any member, the last one included. |
| SinglyTailQueue.RemoveHeadUntil | src/queue.h:282-285 | Drops the front up to and including the given member and resets the tail pointer when nothing is left. |
| SinglyTailQueue.RemoveHead | src/queue.h:276-280 | Drops the first element. |
| SinglyTailQueue.Remove | src/queue.h:262-274 | The walk ends at the predecessor and exactly the given member is cut out, at every position. |
| SinglyTailQueue.Concat | src/queue.h:213-219 | Refines concatenation; the second queue becomes valid and empty. |
| SinglyTailQueue.Append | src/load.c:148-159 | The loaders' staging append: refines appending, also to an empty head whose tail pointer holds anything. |
| SinglyTailQueue.Execute | src/queue.h:209-285 | On two queues at once each macro refines the sequence operation and keeps both tail pointers right. |
| SinglyTailQueue.Run | src/queue.h:209-285 | Both heads hold what any legal run of the macros computes on sequences. |
| SinglyTailQueue.InsertionOrder | src/queue.h:248-252 | A run of tail insertions leaves the entries behind those that were there, in insertion order. |
| SinglyTailQueue.RunAndWalk | src/queue.h:209-285 | After any legal run FOREACH sees exactly what the run computes, in order, on both queues. |
| SinglyTailQueue.InsertAndWalk | src/queue.h:221-252 | After a run of tail insertions FOREACH visits the old entries and then the new ones in insertion order. |
| LinkList.Init | src/queue.h:322-324 | Makes any head a valid empty list. |
| LinkList.InsertHead | src/queue.h:341-346 | Refines prepending and keeps every `le_prev` naming the cell that points at its element. |
| LinkList.InsertAfter | src/queue.h:326-332 | Refines insertion behind a member without the head. |
| LinkList.InsertBefore | src/queue.h:334-339 | Refines insertion in front of a member without the head. |
| LinkList.Remove | src/queue.h:350-359 | Removes a member at any position without the head and clears its links; an element with clear links, and the list, are left exactly as they were. |
| LinkList.RemoveTwice | src/queue.h:350-359 | A second call on the same element is a no-op. |
| LinkList.KeptElements | src/queue.h:317-320 | What the sweep's specification keeps is exactly the members outside the dropped set. |
| LinkList.Sweep | src/queue.h:317-320 | FOREACH_SAFE whose body removes any subset of the current elements visits every original element once in order and leaves exactly the others, in order. |
| CircleQueue.Foreach | src/queue.h:498-501 | Visits every element once, in order, and stops at the head. |
| CircleQueue.ForeachReverse | src/queue.h:503-506 | Visits the exact reverse. |
| CircleQueue.Init | src/queue.h:508-511 | Makes any head a valid empty ring. |
| CircleQueue.InsertAfter | src/queue.h:513-521 | Refines insertion behind any member; every edge of the sentinel ring stays drawn in both directions. |
| CircleQueue.InsertBefore | src/queue.h:523-531 | Refines insertion in front of any member. |
| CircleQueue.InsertHead | src/queue.h:533-541 | Refines prepending. |
| CircleQueue.InsertTail | src/queue.h:543-551 | Refines appending. |
| CircleQueue.Remove | src/queue.h:559-570 | Cuts out exactly the given member. |
| RdnsLocks.StepKeepsLocks | src/rdns_cache.c:109-309 | In every state the lock words agree with where each thread stands: who holds mutex, head and body lock, and in which mode. |
| RdnsLocks.AcquiresInOrder | src/rdns_cache.c:109-309 | No thread asks for a lock of the same or a lower rank (mutex, head, body) than one it holds. |
| RdnsMemory.StepKeepsMemory | src/rdns_cache.c:90-306 | Every step of every thread keeps the links spelling out one list, each allocated node in it once or in one adder's hands, and the walk and purge cursors on it. |
| RdnsSleep.StepKeepsSleep | src/rdns_cache.c:109-170 | Every step keeps the thread's sleep justified: nothing is new, or an adder is about to signal. |
| RdnsExpiry.StepKeepsExpiry | src/rdns_cache.c:214-267 | Every step keeps `first_to_expire` a lower bound of the resolved stamps while no listed entry has the stamp 0 (and in a purge a bound of all entries kept so far, whatever their stamps), keeps it from being in the past except between a walk and the purge test, and keeps the half-done purge in the shape of its specification. |
| RdnsTheorems.StepKeepsInv | src/rdns_cache.c:90-316 | The whole invariant is inductive over every step of the lookup thread, any adder and the destroyer. |
| RdnsTheorems.ReachableInv | src/rdns_cache.c:90-316 | It holds in every reachable state, for any number of adders and every interleaving. |
| RdnsTheorems.NoAddSleptOn | src/rdns_cache.c:145-191 | While the lookup thread is blocked and no signal is on its way, every entry is resolved, exactly unless `last_start`'s address has been allocated again; while one is on its way only the new node in front can be unresolved. |
| RdnsSchedules.ReuseLosesAnAdd | src/rdns_cache.c:148-160 | A schedule with a reused address in which an add is slept on for good. |
| RdnsTheorems.NeverOversleeps | src/rdns_cache.c:157-166 | In every reachable state, at the sleep decision every resolved entry makes the wait a timed one ending no later than the entry expires, exactly if no resolved entry in the list has the stamp 0. |
| RdnsTheorems.PositiveNeverOversleeps | src/rdns_cache.c:214-220 | In every run whose calls of rdns_cache_set_ttl all set a positive time, no resolved entry ever has the stamp 0, and so no wait ends later than a resolved entry expires. |
| RdnsTheorems.StampIsOfItsMoment | src/rdns_cache.c:182-216 | Over every step: a resolved entry keeps its stamp for as long as it is allocated, and gets one only from the walk, which resolves it: the clock of that moment plus the time to live then in force. |
| RdnsTheorems.PurgeBegins | src/rdns_cache.c:227-232 | A purge begins exactly if `first_to_expire` is not in the future, and goes by the clock of that moment. |
| RdnsSchedules.ZeroStampOversleeps | src/rdns_cache.c:214-220 | A schedule that gets there: a listed entry has the stamp 0 (which `first_to_expire` takes for none) and the thread oversleeps. |
| RdnsTheorems.PurgeExact | src/rdns_cache.c:227-272 | A finished purge leaves exactly the order-preserving sublist of entries with ttd > now and recomputes the minimum over it, 0 if none is left. |
| RdnsTheorems.EarliestIsMinimum | src/rdns_cache.c:260-263 | The running minimum is the least surviving stamp, and 0 exactly if nothing survives. |
| RdnsTheorems.AccessesAreLive | src/rdns_cache.c:173-306 | No walk, purge or shutdown step and no linking adder touches a freed node, with adders prepending during the walk under the head lock alone. |
| RdnsReturns.ReturnIsSafe | src/rdns_cache.c:106-119 | The one step that leaves out, an adder's read of its node after the unlock: over every run from the link step on, the node stays in the list, so that the read is of a live node and of its own, exactly if no step has freed it, a freed and reallocated address counting as lost. |
| RdnsReturns.StaysUnlessFreed | src/rdns_cache.c:227-306 | A listed node leaves the list only through a round of the purge that finds it expired or a step of the shutdown that finds it in front. |
| RdnsSchedules.ReturnReadsFreedNode | src/rdns_cache.c:115-119 | A schedule in which it is not safe: the purge frees a node its adder has yet to return the host name of. |
| RdnsTheorems.NodesConserved | src/rdns_cache.c:90-127 | Each allocated node is in the list exactly once or in the hands of one adder, and allocations are frees plus live nodes. |
| RdnsTheorems.DestroyedIsEmpty | src/rdns_cache.c:296-309 | When the shutdown gives up its locks the list is empty, and nothing is allocated but what an adder still carries. |
| RdnsTheorems.NoDeadlock | src/rdns_cache.c:109-309 | No reachable state has a cycle of threads waiting on locks, whether or not a lock prefers its writers. |
| RdnsTheorems.BlockedMeansProgress | src/rdns_cache.c:109-309 | Whenever a thread is kept out of a lock, some lock holder can take a step. |
| RdnsSchedules.ShutdownCanHang | src/rdns_cache.c:143-159 | A schedule in which the shutdown broadcast falls between the test of `rdns_terminate` and the wait: the destroyer spins and the lookup thread sleeps. |
| RdnsShutdown.ShutdownHangsIff | src/rdns_cache.c:143-294 | In every reachable state about to broadcast: some run afterwards, address reuse included, strands the destroyer in its loop exactly if the lookup thread has exited and `rdns_terminate` is not 2, or it stands between the test and the mutex, `first_to_expire` is 0 and the head of the list is `last_start` or can become it again. |
| RdnsShutdown.SleepsAgainIff | src/rdns_cache.c:143-166 | Among the runs that reuse no address: the lookup thread sleeps again, timed or not, exactly if it stands between the test and the mutex with nothing new in the list; the wait is timed exactly if `first_to_expire` is set. |
| RdnsShutdown.StrandedUntilWoken | src/rdns_cache.c:287-294 | A stranded shutdown stays so with every step but a wake-up of the lookup thread. |
| RdnsShutdown.StrandedForEver | src/rdns_cache.c:136-137 | If the lookup thread has exited no run ends it. |
| RdnsSchedules.ExitedThreadHangs | src/rdns_cache.c:136-137 | A schedule that gets there: signals cannot be blocked, the lookup thread stores 2, the destroyer stores 1, and no run of anyone takes it out of its loop. |
| Mccp.Socket.Write | src/mccp.c:137-146 | write's contract: an error, or a prefix of the block goes out. |
| Mccp.CallKeepsPipe | src/mccp.c:170-179 | One deflate call moves bytes from input to buffer: nothing emitted or consumed is lost, doubled or reordered. |
| Mccp.Descriptor.Deflate | src/mccp.c:173-173 | Called only with room for what it is told it may write; keeps sent bytes plus buffer equal to everything emitted. |
| Mccp.Descriptor.SendBlocks | src/mccp.c:134-147 | For any sequence of short writes, zero writes and errors the loop ends exactly the first `iStart` bytes have gone out, short of all of them only if a write has stalled, and the result is FALSE exactly for an error that is not EAGAIN; on a socket that always takes a block it needs one write for each 4096 bytes. |
| Mccp.Descriptor.MoveDown | src/mccp.c:151-152 | The unsent rest moves to the front unchanged. |
| Mccp.Descriptor.ProcessCompressed | src/mccp.c:122-159 | On TRUE, bytes sent followed by the buffer up to `next_out` are what they were: no loss, duplication or reordering under partial writes; anything stays behind only if a write of the call has stalled; it terminates, never moves `next_out` up, and is FALSE exactly for a write error that is not EAGAIN, the pipe then being whole exactly if nothing was sent. |
| Mccp.Descriptor.CompressStart | src/mccp.c:50-90 | Sends as much of the announcement of its version as one write takes, starts an empty stream behind that, and does nothing if one is running; if zlib fails, `out_compress` stays NULL and `out_compress_buf` is left pointing at the freed buffer, everything else being as before. |
| MccpClient.AnnouncementIsHeard | src/mccp.c:26-27 | Read by a telnet client of its own definition (IAC SB option, up to IAC SE or WILL SE), a part of an announcement makes the client inflate exactly if it is all of it and of the client's version; the other version's leaves it in plain text. |
| MccpClient.PlainStaysPlain | src/mccp.c:26-27 | Texts without IAC leave the client in plain text. |
| MccpClient.StartIsHeard | src/mccp.c:75-88 | The client begins to inflate exactly at the byte where the stream begins, exactly if it is of the version started and the socket has taken the whole announcement, and not before. |
| MccpClient.HeaderIsHeard | src/mccp.c:75-88 | So for every announcement of a run. |
| Mccp.Descriptor.WriteCompressed | src/mccp.c:162-190 | The calls of deflate are those of the loop, each with the input left by the one before and the room the buffer then has; on TRUE deflate has consumed exactly all texts written and the pipe is whole; the buffer is never overrun. With more rounds than the text has bytes the loop goes on only if a write or a call of deflate has taken nothing. |
| Mccp.Descriptor.CompressEnd | src/mccp.c:93-119 | On TRUE the stream is finished and sent bytes followed by the dropped residue are all of it. FALSE comes exactly from a deflate that does not reach the end of the stream in the `avail_out` left over from an earlier call, or from a failed write; the descriptor then stays in use, and the pipe is whole exactly if nothing was sent in the call. |
| Mccp.PeerSeesPrefix | src/mccp.c:162-190 | With a lossless codec, whatever is still buffered, the peer's decoding of the bytes sent is a prefix of what deflate consumed. |
| Mccp.PeerSeesAll | src/mccp.c:93-119 | It is all of it when the last call left nothing inside deflate and the buffer has drained. |
| MccpSession.Converse | src/mccp.c:122-190 | Over any run of writes and retries that return TRUE, whatever the socket does, what the peer decodes is a prefix of the concatenated texts; FALSE comes only from a failed write, a refused flush, or a wait. |
| MccpSession.ConverseAndEnd | src/mccp.c:93-190 | Ended by compressEnd, the stream is finished and sent bytes followed by the residue, which is as long as what was left in the buffer, are all of it; with nothing left the peer has decoded exactly the texts. |
| MccpSession.QueueConserves | src/mccp.c:169-186 | A codec that queues internally emits and holds back exactly what it has consumed. |
| MccpSession.QueueingIsLossless | src/mccp.c:169-186 | The codec contract can be met. |
| MccpSession.TextStaysInsideDeflate | src/mccp.c:162-190 | A run of a whole descriptor, with a codec that meets the contract: writeCompressed returns TRUE for two bytes and its buffer has drained to the socket, yet the peer can decode only the first of them, because the loop stops when the input is taken, not when the output is flushed. |
| MccpSession.RoomToSpareDelivers | src/mccp.c:169-186 | If the last call had room to spare and the buffer has drained the peer has everything. |
| MccpLife.SoundDecodes | src/mccp.c:122-190 | What is sent of a stream is a prefix of what deflate has emitted, so the peer decodes a prefix of the texts it has consumed, and all of them if nothing is left inside deflate or unsent. |
| MccpLife.Perform | src/mccp.c:50-190 | Each command changes the connection as its answer says: a start appends a prefix of the announcement and an empty stream, a text is appended in plain or goes into the running stream through exactly the calls of the loop, a retry only sends more, an end adds one finishing call and, unless a write has failed, stops the stream exactly if that call reached the end of it; all earlier stretches stay as they are. |
| MccpLife.EndedStream | src/mccp.c:93-119 | A stream whose end was answered with TRUE is whole exactly if all that deflate has emitted went out, and later commands leave it alone. |
| MccpLife.RunCarries | src/mccp.c:50-190 | At every moment of a run the plain texts and the texts of the streams are together exactly the texts given by then, in order. |
| MccpLife.Live | src/mccp.c:50-190 | Any run of starts, texts, retries and ends whose answers are ignored, whatever the socket does, goes through states each of which follows from the one before by its command and answer, carries exactly the texts given, and is understood by the peer; the last one is byte for byte what has been sent. The run stops only at a write error, a refused flush, or a wait that a write or a call taking nothing has caused. |
| FlagBits.UpdateFlag | src/flags.c:209-236 | The table loop equals the closed form: the marked table bits, less the set non-settable ones, combined with the base value by =, +, - or toggle. |
| FlagBits.UpdatedBitByBit | src/flags.c:209-236 | What the closed form does to each single bit of the word. |
| FlagBits.NeverCleared | src/flags.c:211-215 | Over any run of commands a set non-settable bit is never cleared. |
| FlagBits.ToggleTwice | src/flags.c:228-233 | Toggling twice is the identity exactly if no marked entry is a non-settable one that was off. |
| Text.StrPrefix | src/lookup.c:59-62 | FALSE exactly if the first text is a prefix of the second up to case and the two Cyrillic letters ie and yo. |
| Text.AbbreviatesIff | src/lookup.c:57-66 | The lookups' match is the prefix match, but that the first letters may not differ as ie and yo do. |
| Text.LetterCase | src/lookup.c:59-62 | Letter case pairs the 26 Latin and the 32 Cyrillic capitals with their small letters, and nothing else. |
| Text.BlanksAndQuotes | src/flags.c:296-299 | The four blanks are skipped, and both quotes quote. |
| Text.SplitArgument | src/flags.c:296-299 | Computes the first argument in lower case and the rest behind its blanks, quotes included. |
| Text.QuotedSplitsOff | src/flags.c:296-299 | A quoted argument ends at its closing quote, blanks and all. |
| Text.WordSplitsOff | src/flags.c:294-306 | A one-word name followed by a blank splits off as itself in lower case and leaves the rest untouched. |
| FlagText.FlagLookup | src/lookup.c:50-69 | The bit of the first entry whose name or rname the word abbreviates, and NO_FLAG exactly if there is none. |
| FlagText.FlagValue | src/flags.c:272-312 | The union of the bits of all words that name a flag; 0 for an empty text; NO_FLAG if no word does. |
| FlagText.WordsAreRead | src/flags.c:294-311 | A text of any words is the union of the bits its words name, whatever else is among them, and NO_FLAG exactly if none names one. |
| FlagText.FlagString | src/flags.c:326-371 | The names of the set table bits in table order, blank-separated; with none set the text for none. |
| FlagText.NoneIfEmpty | src/flags.c:321-371 | With empty_none, as flag_string calls it, the answer is "none" for the words without a table bit and for all others the answer without it. |
| FlagText.NoneIffEmpty | src/flags.c:321-371 | In a table without an entry of that name, "none" says that no table bit is set. |
| FlagText.NameIsFound | src/lookup.c:57-66 | An entry's own name finds it if the name abbreviates no earlier entry. |
| FlagText.ParsePrinted | src/flags.c:294-306 | Parsing the printed names of any tail of the table marks exactly that tail's set bits. |
| FlagText.PrintedIsParsed | src/flags.c:272-371 | In an unshadowed table flag_value of fflag_string gives the bits masked by the table, the empty word included. |
| FlagText.ShadowedIsMisread | src/lookup.c:57-66 | A name that abbreviates an earlier entry is read back as another bit. |
| FlagText.RoundTrip | src/flags.c:272-371 | The print and parse round trip holds for every word exactly if no entry's name abbreviates an earlier name or rname. |
| FlagText.RoundTripWithNone | src/flags.c:272-371 | What flag_string prints is parsed back for every word with a table bit set, exactly in an unshadowed table; |
| FlagText.NoneIsUnknown | src/flags.c:294-311 | and "none" is read as NO_FLAG exactly if it abbreviates no entry. |
| FileText.ReadIsClean | src/load.c:643-650 | Whatever fread_string returns survives being written again. |
| FileText.CleanIsRead | src/load.c:675-682 | A clean string written with blanks in front and a tilde behind is read back unchanged, up to the tilde. |
| FileText.SurvivesIffClean | src/load.c:675-682 | Exactly the strings without tilde, leading blank, or line end other than newline-return survive `%s~`. |
| FileText.WordIsRead | src/load.c:622-632 | A keyword in front of white space is read as it stands. |
| FileText.QuotedIsRead | src/load.c:622-622 | A quoted word is read up to its closing quote, blanks and all. |
| FileText.LineIsSkipped | src/load.c:568-568 | fread_to_eol leaves what follows the line, however it is ended. |
| FileText.CookedLineEnds | src/load.c:643-650 | A string read has a return behind every newline and nowhere else, and is otherwise the text of the file. |
| GroupFile.ReadGroup | src/load.c:607-658 | The reader's loop computes the specification, comments, unknown words, truncated files and overfull groups included. |
| GroupFile.AddGroup | src/load.c:148-159 | Stages one more group at the end of the queue. |
| GroupFile.LoadGroups | src/load.c:543-604 | Staging through the tail queue and copying into a table of the counted size gives what the reader gives section by section, in file order; no slot is missed or overrun. |
| GroupFile.SaveGroups | src/load.c:660-688 | The nested writing loops produce the specified file. |
| GroupByHand.HandWrittenIsLoaded | src/load.c:543-658 | A file of any comments, unknown sections and groups, the groups of any comments, unknown words and lines in any order, keywords and white space as the reader allows them, loads as exactly its groups: the last name and rname of each, and its spells in order. |
| GroupByHand.RemarkIsSkipped | src/load.c:566-570 | A comment line makes no difference, in front of any section. |
| GroupByHand.StrayIsSkipped | src/load.c:588-592 | Nor does an unknown section name. |
| GroupByHand.BodyIsReadAs | src/load.c:620-657 | The lines of a group, with any comments and unknown words among them, are read as what they say, whatever follows. |
| GroupByHand.OneSpellTooMany | src/load.c:645-650 | The 36th spell of a group is where the model has no answer. |
| GroupByHand.SavedIsByHand | src/load.c:660-688 | A saved file is such a file: a GROUP section for every group with its Name, RName and Spell lines, and an End section. |
| GroupRoundTrip.SpellsAreRead | src/load.c:643-650 | The spell lines of a group are read into consecutive slots, blanks having been skipped by the writer. |
| GroupRoundTrip.FileIsRead | src/load.c:543-604 | A clean table's file, read behind any groups already staged, appends every group with its non-empty spells in front. |
| GroupRoundTrip.LoadedIsClean | src/load.c:607-658 | Whatever file is loaded, the table it gives is clean. |
| GroupRoundTrip.LoadSaved | src/load.c:660-688 | Loading what was saved gives the same groups in the same order, each with its non-empty spells moved to the front in order, exactly if the table is clean. |
| GroupRoundTrip.SaveAgain | src/load.c:660-688 | Saving the reloaded table writes the identical file. |
| GroupEditor.GroupLookup | src/lookup.c:371-393 | The first group whose name or rname the word abbreviates, -1 exactly if there is none. |
| GroupEditor.SkillLookup | src/lookup.c:321-342 | The same for skills, the search ending at a nameless one. |
| GroupEditor.SmashTilde | src/olc_groups.c:20-20 | Every tilde of the line, and nothing else, becomes a dash, in place. |
| GroupEditor.Editor.SetName | src/olc_groups.c:145-181 | name and rname: the edited group's one field, and nothing else; refused exactly for an empty text. |
| GroupEditor.Editor.Add | src/olc_groups.c:183-232 | Puts into the first blank slot the English name of the first group the word abbreviates in either language, or only if there is none that of the first such skill; refuses exactly if the text is empty, the group full, the word unknown, or an abbreviation of a spell already there. |
| GroupEditor.ResolvedIsMeant | src/olc_groups.c:208-228 | There is at most one name that a word means, and that is the one taken. |
| GroupEditor.Editor.Delete | src/olc_groups.c:234-258 | Blanks the first spell the word abbreviates; refuses exactly if there is none. |
| GroupEditor.DeleteUndoesAdd | src/olc_groups.c:183-258 | delete with the word just given to add undoes it exactly if the word abbreviates the stored name; a word found through a Russian name need not. |
| GroupEditor.Editor.Dispatch | src/olc_groups.c:35-45 | Runs the first command the word abbreviates and sets `groups_changed` exactly if it reports a change. |
| GroupEditor.Editor.Gredit | src/olc_groups.c:12-46 | One typed line has exactly the specified effect, and a line passed on to the interpreter has none. |
| GroupEditor.TypedName | src/olc_groups.c:19-45 | By the words typed: done closes the editor, an abbreviation of name or rname sets that field to the argument with its tildes smashed, and a word that abbreviates none of the four editing commands changes nothing. |
| GroupEditor.TypedSpell | src/olc_groups.c:19-45 | An abbreviation of add stores the name the argument means in the first blank slot, one of delete blanks the first spell it abbreviates. |
| GroupEditor.Editor.Open | src/olc_groups.c:48-106 | create adds an empty group and edits it; otherwise the named group is edited, an unknown one changing nothing. |
| GroupEditor.OpenedByWord | src/olc_groups.c:48-106 | create makes a group with empty names and 35 empty spells and edits it; any other word opens the first group it abbreviates, or none. |
| GroupEditor.Editor.Save | src/olc_groups.c:108-117 | Writes the table's file exactly if `groups_changed` is set. |
| GroupSession.ArgumentIsClean | src/olc_groups.c:19-21 | What follows the command word of any smashed input line survives the file format. |
| GroupSession.StepKeepsFit | src/olc_groups.c:12-106 | Any command, on any line, keeps the table well-formed and clean, given clean skill names. |
| GroupSession.RunKeepsFit | src/olc_groups.c:12-106 | So does any run of commands. |
| GroupSession.UnmarkedIsUnchanged | src/olc_groups.c:35-41 | `groups_changed` is never reset, and while it is not set the table is the loaded one. |
| GroupSession.EditIsLocal | src/olc_groups.c:12-46 | A typed line changes no group but the edited one and never the number of groups. |
| GroupSession.NoEditIsLost | src/olc_groups.c:108-117 | For every file, every run of commands and every save, loading the file left behind gives every group back in its place, compacted if anything was changed and exactly as it was if not. |
| ArenaFile.CapitalizeTwice | src/arena.c:316-336 | capitalize is idempotent. |
| ArenaFile.CapitalizeMeans | src/arena.c:316-336 | It leaves a text that differs in letter case alone, with no small letter in front and no capital behind it. |
| ArenaFile.WrittenInFull | src/arena.c:320-343 | The words around what is written, in full. |
| ArenaFile.NumberIsRead | src/arena.c:120-122 | A printed number, negative ones included, on a line of its own is read back and the line end is left. |
| ArenaFile.NumbersAreSummed | src/arena.c:120-122 | Numbers joined by bars are summed, a plus sign means nothing, and one blank behind a number is taken with it. |
| ArenaRoundTrip.ScoresAreRead | src/arena.c:65-98 | A challenger's file is read back as its scores in reverse, with their points and number. |
| ArenaRoundTrip.BadFileExits | src/arena.c:79-97 | An unknown section, a file without its end, or text where a section should begin stops the server. |
| ArenaRoundTrip.BadListExits | src/arena.c:60-70 | So do a listed challenger without a file and a list without its dollar sign. |
| ArenaRoundTrip.LoadSavedExactly | src/arena.c:46-112 | What a load makes of any saved list: the challengers in reverse, each with the scores of the last one of its capitalized name, in reverse. |
| ArenaRoundTrip.LoadSaved | src/arena.c:46-112 | For names that can be listed and clean opponents, one save and load reverses the challengers and each score list, whatever files were there before, exactly if no two challengers of the same capitalized name differ in their scores. |
| ArenaExact.ReadNamesAreListable | src/arena.c:60-70 | A list of names is read back exactly only if each of them is one word that no quote or dollar starts: once the reader is past the end of a line it never gives the remaining names, whatever they are. |
| ArenaExact.LoadsBackIff | src/arena.c:46-112 | Whatever the names, opponents and files: one save and load reverses the challengers and each score list exactly if every capitalized name can be listed, every capitalized opponent is clean, and no two challengers of the same capitalized name differ in their scores. |
| ArenaRoundTrip.TotalsSurvive | src/arena.c:124-125 | A loaded record's `ball` and `game` are the sum of points and the number of scores, and equal the saved ones. |
| ArenaRoundTrip.TwiceRestores | src/arena.c:301-347 | A second save and load restores the order of both, the texts being capitalized. |
| Arena.Challenger.Put | src/arena.c:157-178 | Adds a score in front and keeps `ball` and `game` the totals. |
| Arena.Challenger.Take | src/arena.c:266-296 | Unlinks the first score of that time, if there is one, and keeps the totals. |
| Arena.Board.Save | src/arena.c:301-347 | Writes the specified list and one file per challenger. |
| Arena.Board.FindChallenger | src/arena.c:181-193 | Finds the first challenger of that name up to case, and NULL exactly if there is none. |
| ArenaRoundTrip.UnknownNameIsDistinct | src/arena.c:181-193 | A name it does not find gets a file of its own, so its callers keep the capitalized names distinct. |
| Arena.Board.AddChallenger | src/arena.c:138-155 | Prepends an empty challenger, keeps all totals and leaves the files of the new list on disk. |
| Arena.Board.AddScore | src/arena.c:157-179 | Changes one challenger's scores and totals only and leaves them on disk. |
| Arena.Board.DeleteScore | src/arena.c:266-299 | Removes the first score of that time, keeps all totals, hands the node to the free list and saves; without such a score nothing changes. |
| Arena.Board.DeleteScores | src/arena.c:238-239 | The loop goes on from a freed score's next pointer into the free list: what is left is stated exactly, and no other challenger is touched. |
| Arena.Board.DeleteChallenger | src/arena.c:231-264 | Removes the challenger and no other, and leaves the files of the new list on disk. |
| Arena.AllFreedIff | src/arena.c:238-239 | Deleting a challenger frees all scores exactly if it has none or the free list holds, for every score after the first, one of the same time. |
| Arena.DeleteLeaks | src/arena.c:238-239 | With an empty free list all scores but the first stay behind, for any list of scores. |
| Arena.LoadScores | src/arena.c:65-98 | The section loop computes the reader's specification, its exits included. |
| Arena.LoadArena | src/arena.c:46-112 | So does the loop over the list file. |
| Arena.ReloadsReversed | src/arena.c:46-112 | Whenever the list in memory has been saved, its names are distinct and its texts writable, a load gives it back in reverse with every total unchanged. |
| ArenaSession.StepKeepsFit | src/arena.c:138-299 | Every command keeps the texts writable and the capitalized names distinct, given names that fit on a line and hold no tilde. |
| ArenaSession.Perform | src/arena.c:138-299 | One command (enter, fight, delete a score, delete a challenger) on the list in memory does exactly the specified change of records and leaves it saved. |
| ArenaSession.EnteredMeans | src/arena.c:138-155 | Entering makes the name known and keeps everyone else in place. |
| ArenaSession.ScoredMeans | src/arena.c:157-179 | A side of a fight puts the score first with the one the name finds, and changes nobody else. |
| ArenaSession.ForgottenMeans | src/arena.c:231-299 | Forgetting takes one score of that time away, and the challenger whose only one it was; expelling takes the challenger away. |
| ArenaSession.BothSides | src/arena.c:166-166 | A win counts three for one side and nothing for the other, a draw one for each. |
| ArenaSession.BallCounts | src/arena.c:124-124 | A total is three times the number of wins plus the number of draws. |
| ArenaSession.AnySession | src/arena.c:46-347 | After any run of commands, whatever names they are given, the files load as the list in memory in reverse exactly if its names can be listed and its opponents are clean. |
| ArenaSession.Session | src/arena.c:46-347 | After any run of commands the files load as the list in memory in reverse, and that list is again one every later session can start from. |
| ChatLists.Hang | src/eliza.c:192-211 | Links a node into one of any number of owned lists at any position; every other list keeps its nodes and its order, and no node is on two lists. |
| ChatLists.Unhang | src/eliza.c:85-99 | Takes one node out of its list and no other. |
| ChatBooks.Chat.Take | src/eliza.c:33-52 | new_reply, new_chatkey, new_chatkeys: the first free node, or a new one, never one on any list; its links are cleared. |
| ChatBooks.Chat.Give | src/eliza.c:54-60 | Pushes a node that is on no list onto a free list. |
| ChatBooks.Chat.GiveAll | src/eliza.c:91-95 | Walks a list while its links are being overwritten; every node of it ends on the free list, the last one in front. |
| ChatBooks.Chat.FreeChatkey | src/eliza.c:85-99 | Frees the key and each of its replies, in the stated order, and changes no other list. |
| ChatBooks.Chat.FreeChatkeys | src/eliza.c:125-137 | Frees the book, every key and every reply under it; all three free lists are given exactly, and no other list changes. |
| ChatBooks.Chat.StackedMembers | src/eliza.c:125-137 | The order in which the replies go back holds exactly the replies of all keys. |
| ChatEditor.NewBook | src/eliza.c:169-174 | A new book is put in front of the others, its node off the free list. |
| ChatEditor.NewKey | src/eliza.c:186-203 | A new key is put at any position of its book. |
| ChatEditor.NewReply | src/eliza.c:206-211 | A new reply is put in front of the others of its key. |
| ChatEditor.DeleteBook | src/eliza.c:125-137 | Any book of a tree can be unlinked and freed: what the caller of free_chatkeys owes it is part of the invariant. |
| ChatRuns.AddKeyMeans | src/eliza.c:186-203 | On the lists of a tree of books the new key is the insertion into nested sequences, and the tree stays one. |
| ChatRuns.DropKeyMeans | src/eliza.c:85-99 | Unlinking and freeing a key is the deletion from nested sequences, and the tree stays one. |
| ChatRuns.DropBookMeans | src/eliza.c:125-137 | So for a whole book: every other book keeps its keys and replies in order, and can be freed itself later. |
| ChatRuns.Perform | src/eliza.c:31-214 | One command, at any position, even one that is not there, does to the linked lists exactly what it does to nested sequences, and keeps the tree, the free lists and their separation; a record is handed out exactly if the command adds one at a place that is there. |
| ChatRuns.Run | src/eliza.c:31-214 | So does any run of commands that make and delete books, keys and replies, from any such state; no node is ever lost. |
| ChatRuns.DropUndoesAdd | src/eliza.c:170-211 | Books and replies are added in front and keys at the place given, so that deleting there takes the addition back. |
| ChatRuns.EmptyWorld | src/eliza.c:31-31 | The state before the first area file is read is such a state. |
| ChatRuns.OnePlace | src/eliza.c:31-137 | In all these states no node is reachable twice, within a list or through two owners. |
| ChatRuns.Accounted | src/eliza.c:31-137 | And every node ever handed out is on a free list or in the books, never both. |
| ProgFormat.FormatCodeOutput | src/olc_mpcode.c:863-974 | The loop shows exactly the specified lines behind the specified number of tabs, for any code. |
| ProgFormat.KindByWord | src/olc_mpcode.c:897-944 | A line opens a block exactly if it begins with "if", closes one exactly if with "end if" or "endif", and turns one exactly if with "else", in any letter case. |
| ProgFormat.StrayWord | src/olc_mpcode.c:917-973 | Outside every block an end or an else is shown without tabs and leaves the depth at 0. |
| ProgFormat.NothingIsLost | src/olc_mpcode.c:878-895 | The lines hold exactly the non-blank characters of the code, in order. |
| ProgFormat.BlockIsNested | src/olc_mpcode.c:897-973 | Any well-nested block, by the words its lines begin with, is shown with every line at the depth of its block and leaves the depth as it was. |
| ProgFormat.SplitText | src/olc_mpcode.c:878-895 | Splitting recovers the lines of a text, however the lines are indented and spaced by empty lines. |
| ProgFormat.EveryTextIsLaid | src/olc_mpcode.c:878-895 | Every text is made of the lines Split gives and the padding between them. |
| ProgFormat.SplitIff | src/olc_mpcode.c:878-895 | A text is split into given lines exactly if it is these lines, laid out in some way. |
| ProgFormat.WellNestedIsIndented | src/olc_mpcode.c:863-974 | Well-nested code is listed by depth, from its text on, whatever indentation and empty lines it already has. |
| ProgFormat.ListingIsListed | src/olc_mpcode.c:863-974 | The listing of any code, given to the lister again, comes out unchanged. |

## Left out

- UpdateFlag: the words before the table loop are arbitrary marked bits, so the missing-word test of `do_flag` (against 0 where the lookup returns NO_FLAG) is not modelled.
- FlagValue: tables that `is_stat` singles out, whose entries are values and not bits, are not modelled.
- FlagString: only the English names are printed (`rname` FALSE); the 4096-byte buffer is unbounded.
- UpdatedBitByBit: a 64-bit word is the set of its one-bits, and every table entry is a single bit; entries that combine several bits are not modelled.
- WriteCompressed: the loop waits for as long as the socket says EAGAIN; a fuel parameter bounds the wait, and `Spinning` is the state it is then in.
- Live: when a write fails in compressEnd behind bytes that went out, the run is not followed further, since those bytes go out again; texts are given as they leave `write_to_descriptor`; the recoding before that, and closing the connection, are left out.
- ConverseAndEnd: completeness is stated for the drained case only, because the source drops the rest.
- NoAddSleptOn: resolver results and the reader side (a stub in the source) are left out; an entry counts as resolved once `valid` is set.
- Open: a second editor's pointer into `group_table`, which `realloc` may move, is not modelled; nor are permission checks and messages.
- LoadGroups: a word longer than the reader's buffer, and a second load into the same staging head (whose entries have been freed), are not modelled; a file that ends inside a string or a comment, or holds more than 35 spells for a group, has the outcome `Broken`.
- NumberIsRead: numbers are unbounded integers; 64-bit overflow and the truncation to `int` are not modelled.
- DeleteChallenger: file operations succeed; a score of the free list is represented by its time, which is all the loop reads. The functions of `src/arena.c` are called from the arena command, which is commented out in `src/act_wiz.c`; `ArenaSession` follows it, with names taken as given.
- TwiceRestores: stated for distinct capitalized names; `ArenaSession.Session` shows that the arena command keeps them so.
- Take: the strings and numbers of books, keys and replies are left out; what is modelled of a record is its node, its link and its list. A second editor's pointer to a deleted book is not modelled.
- FormatCodeOutput: colour highlighting is left out, since `string_replace` and the keyword tables are not part of this model; line buffers are unbounded.
- SLIST: its macros are the STAILQ ones without the tail pointer.
- The resolver, logging, terminal output, signal masks, file opening, and zlib and socket internals are parameters or left out.
- Skills, races, classes, moons, spell affects and colour schemas of `src/load.c`: several of their writers and readers do not match, so there is no round trip to state.
- `src/check_proxy.c` and `src/checker_util.c` compute nothing of their own.
- `src/mob_ai.c` works through functions that are not part of this model and is called from disabled code only.
