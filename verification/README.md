# Verification of reproduce

`reproduce` traces a program and everything it starts, and takes the randomness
and the clock out of their system calls.  This project models the three parts
that have to be right for that, and proves what each is for.

**The hash table** (`reproduce/include/uthash.h`), the one structure the tracer
keeps.  An `Element` is linked into two doubly linked lists at once.  The class
`HashTable.Table` runs the table's macros on those pointers: both kinds of
add, delete, find, bucket doubling, the in-place merge sort and the table's own
consistency check.  Each method is tied to a function on `TableSpec.View`, the
table as a value, and the theorems are about that value: placement of every
element, what doubling does to each chain, the expansion statistics in closed
form, uniqueness of the stable sort, runs of operations in any order.
`Registry.ProcessTable` is the process table of `reproduce/src/hashtable.c` on
top of it, and refines an insertion-ordered map from pids to clocks.

**Access to a traced process** (`reproduce/src/putils.c`, `reproduce/src/vdso.c`).
Memory is a finite map from addresses to bytes, reached eight bytes at a time.
The word loops are shown to be the byte-level operations they stand for, with
the exact condition under which they complete, and with what is left behind when
the process vanishes half-way (a `Life` counts the requests it still answers).

**The tracer** (`reproduce/src/syscalls.c`, `reproduce/src/events.c`).
`Syscalls.HandleSyscall` and `Events.Tracer` run the handlers and the event loop
over the pointer-based registry; `Events.World` and `Events.Handle` are the same
as a transition system, in which the environment picks every next stop and what
the kernel and the processes did before it.  Proved over whole runs: no emulated
call ever reaches the kernel; clocks count time calls; what a process experiences
follows from its own history alone, up to the end of the loop; the tracer's exit
happens exactly under stated conditions on memory; all emulated calls are answered
but for one stated case; the registry is the balance of its insertions and
deletions.

Where code and comments or expectations differ, the model follows the code:

- `replace_buf` writes its last partial word by reading and rewriting all eight
  bytes.  If they are not all mapped the tracer exits, even though the buffer
  itself is mapped (`Memory.BlitTailFaults`; exact condition in `Memory.BlitExact`).
- `read_child_c_string` and `remove_vdso` treat a word that reads as -1 as an
  error and exit (exact conditions in `CString.StringReadExact`, `Vdso.VdsoExact`;
  `SyscallFacts.OpenatRefused` is a legal file name on which the tracer exits).
- A redirected `openat` is still executed by the kernel; only its result is
  replaced (`SyscallFacts.OpenatExact` records it in `ran`).
- The path of an open call is read again at the call's exit.  If another thread
  has turned it into a random device by then, the tracer lets the process run on
  to its next call and overwrites that call with the open.  So it is not true that
  every emulated call is answered.  `Phases.OpenExit` has the exact condition,
  `Answering.AllAnswered` states it over whole runs, and
  `LateOpenExample.ExampleSwallowed` is a run that loses a getrandom.  That the
  kernel never executes an emulated call holds all the same.
- An unexpected process has `remove_vdso` run on it although it is not at an
  exec stop.  The two orders of the registration race then agree if and only if
  the words above the child's stack pointer reach the key AT_NULL before
  AT_SYSINFO_EHDR (`Scheduling.RaceConfluent`); `RaceExample.ExampleDiverges` is a
  pair of runs that do not agree, `RaceExample.ExampleExits` one in which a single
  order makes the tracer exit.
- One process can make the tracer exit for all others, so independence of
  scheduling holds only up to the end of the loop.  `Exits.ExitFelt` and
  `ExitExample.ExampleFelt` show a process with one history and two outcomes;
  `Exits.ExitExact` has the exact condition for an exit, and `Exits.WholeHistory`
  full independence without one.
- The loop leaves when the registry is empty, even if a forked child is waiting
  whose own first stop nobody has seen (`Exits.LeftBehind`).
- The table's consistency check does not look at the tail pointer; the model's
  invariant `Table.Valid` does.

Modules, bottom up: `Bits`, `Jenkins`, `HashExample`, `StableSort`, `Elements`, `ListSort`,
`TableSpec`, `TableLemmas`, `HashTable`, `TableRuns`, `TableGrowth`, `Registry`,
`Memory`, `CString`, `Vdso`, `Syscalls`, `SyscallFacts`, `Events`, `Phases`, `Observed`,
`Answering`, `Scheduling`, `Exits`, `ForkStart`, `RaceExample`, `LateOpenExample`,
`ExitExample`, `Clocks`, `Ledger`.

## Model

| member | source | states |
|---|---|---|
| ListSort.Sort | reproduce/include/uthash.h:988-1087 | for every comparison function the in-place sort ends, and leaves both link directions, first and last element of exactly the merge-sorted sequence |
| ListSort.MergePass | reproduce/include/uthash.h:998-1076 | one pass relinks the list into `Pass`, counts its merges, and terminates the list |
| ListSort.MergeRuns | reproduce/include/uthash.h:1016-1071 | the merge loop moves two runs behind the emitted list in `Merge` order, leaving the rest of the list intact |
| StableSort.SortPermutes | reproduce/include/uthash.h:988-1087 | whatever the comparison function, sorting is a permutation |
| StableSort.PassDoublesRuns | reproduce/include/uthash.h:997-1084 | if all aligned runs of k are sorted, one pass makes all aligned runs of 2k sorted |
| StableSort.MergeSortCorrect | reproduce/include/uthash.h:984-1087 | for a total preorder the result is sorted and stable |
| StableSort.StableSortUnique | reproduce/include/uthash.h:984-1087 | a sorted, stable rearrangement is unique, so the order is fully determined |
| StableSort.InsertionEqualsMergeSort | reproduce/include/uthash.h:318-325 | inserting one by one before the first greater element gives exactly the merge sort |
| Bits.MaskIsMod | reproduce/include/uthash.h:476-479 | masking with 2^k - 1 selects the bucket by remainder |
| Bits.ShiftMaskIsCeil | reproduce/include/uthash.h:906-921 | the shift-and-mask expression is the ceiling of n over the bucket count |
| HashTable.AddToBkt | reproduce/include/uthash.h:861-870 | the linking half of an add puts the element at the head of its chain, count and back link included, and leaves every other chain alone |
| HashTable.DelInBkt | reproduce/include/uthash.h:880-893 | removes the element from its chain wherever it stands and leaves the other chains alone |
| HashTable.MoveOne | reproduce/include/uthash.h:947-963 | one step of the relinking loop keeps the new array equal to the chains, counts, multipliers and non-ideal count of the elements moved so far |
| HashTable.MoveAll | reproduce/include/uthash.h:943-966 | the nested relinking loops move every element of the old array into the new one |
| HashTable.Table.constructor | reproduce/src/hashtable.c:12 | no table at all is the empty value |
| HashTable.Table.MakeTable | reproduce/include/uthash.h:234-265 | a fresh table has 32 empty buckets, zero statistics and its first element as tail |
| HashTable.Table.ExpandBuckets | reproduce/include/uthash.h:924-982 | doubling turns the table into `Expanded` of its value, application order untouched |
| HashTable.Table.AddToTable | reproduce/include/uthash.h:370-379 | hashes a listed element into its bucket and expands when the bucket is over its threshold |
| HashTable.Table.Append | reproduce/include/uthash.h:438-459 | add keeps `Valid` and yields `Appended`: last in application order, in its own bucket, expanded if due |
| HashTable.Table.AddInOrder | reproduce/include/uthash.h:383-419 | ordered add keeps `Valid` and yields `Inserted`: before the first element that compares greater, or last |
| HashTable.Table.Delete | reproduce/include/uthash.h:495-527 | delete keeps `Valid` and yields `Deleted`, for head, middle, tail and last remaining element, which frees the table |
| HashTable.Table.Find | reproduce/include/uthash.h:167-179 | returns exactly `Lookup`, null without a table |
| HashTable.FindInBkt | reproduce/include/uthash.h:838-858 | the chain walk returns the first element with that hash and key, or null |
| HashTable.Table.Sort | reproduce/include/uthash.h:988-1087 | sorts the application order, moves head and tail, and leaves bucket chains and statistics untouched |
| HashTable.Table.Fsck | reproduce/include/uthash.h:573-623 | the check accepts exactly the tables whose back links, bucket counts and total counts agree |
| HashTable.ValidIsConsistent | reproduce/include/uthash.h:573-623 | a valid table always passes the check |
| HashTable.ConsistentMeans | reproduce/include/uthash.h:580-621 | the check passes if and only if every bucket's count and back links, the total over all chains, the number of listed elements and their back links are right |
| HashTable.LookupMeaning | reproduce/include/uthash.h:838-858 | a search finds an element with the key and hash if and only if the table holds one |
| TableLemmas.AppendedInv | reproduce/include/uthash.h:438-459 | add keeps every element in exactly one chain, the one its hash selects, among 2^log2 buckets, expansion included |
| TableLemmas.InsertedInv | reproduce/include/uthash.h:383-419 | the same for the ordered add |
| TableLemmas.DeletedInv | reproduce/include/uthash.h:495-527 | the same for delete, which removes that element from the application order and no other |
| TableLemmas.SortedInv | reproduce/include/uthash.h:988-1087 | the same for the sort, for every comparison function |
| TableLemmas.ExpandedInv | reproduce/include/uthash.h:924-982 | doubling keeps placement, 2^log2 buckets, and inhibition after two ineffective expansions |
| TableLemmas.ExpandedChain | reproduce/include/uthash.h:943-966 | new bucket b holds, reversed, exactly the elements of old bucket b mod n whose hash selects b among 2n |
| TableLemmas.FlattenPlaced | reproduce/include/uthash.h:594-604 | the chains together hold each listed element exactly once |
| TableLemmas.PlacedByHash | reproduce/include/uthash.h:476-479 | an element is in the chain numbered by its hash modulo the number of buckets, and in no other |
| TableLemmas.MultClosed | reproduce/include/uthash.h:950-957 | the multiplier a bucket ends with is min(max(0, count - ideal), ceil(count / ideal)) |
| TableRuns.ExpansionStatistics | reproduce/include/uthash.h:937-979 | ideal length, non-ideal count and all multipliers of an expansion in closed form, ineffective exactly if more than half the elements are non-ideal, inhibited from the second in a row; every chain is at most ideal * (multiplier + 1) long |
| TableRuns.ExpansionInhibited | reproduce/include/uthash.h:1232-1238 | after two consecutive ineffective expansions no later operation changes bucket count or multipliers while the table lives |
| TableGrowth.AddGrows | reproduce/include/uthash.h:871-875 | an add, plain or ordered, doubles the number of buckets if and only if expansion is not inhibited and the new element's chain reaches 10 * (multiplier + 1); otherwise buckets, multipliers and statistics stay |
| TableGrowth.AddWithoutDoubling | reproduce/include/uthash.h:863-870 | an add that does not double changes nothing but the end of the application order and the head of one chain |
| TableGrowth.OthersKeepBuckets | reproduce/include/uthash.h:495-527 | deletes and sorts change neither the number of buckets nor multipliers nor statistics of a table that lives on |
| TableGrowth.ManyElements | reproduce/include/uthash.h:871-875 | after any run of operations a table of more than 288 elements has more than its first 32 buckets |
| TableGrowth.OneHashGrowth | reproduce/include/uthash.h:871-979 | elements that all have one hash: 32 buckets up to nine of them, 64 up to 99, and 128 for ever after, since both expansions were ineffective |
| TableRuns.Execute | reproduce/include/uthash.h:573-623 | over any run of appends, ordered adds, deletes and sorts, each ordered add and each sort with a comparison function of its own, the pointer code computes the run of values and the check after each operation never fails |
| TableRuns.TwoRoutes | reproduce/include/uthash.h:383-419 | ordered adds one by one, and plain adds followed by one sort, leave the same application order |
| Jenkins.JenMix | reproduce/include/uthash.h:694-723 | the 27 assignments compute `Mix` |
| Jenkins.ShiftLeftDrops | reproduce/include/uthash.h:701-719 | a left shift by k is (x mod 2^(32-k)) * 2^k |
| Jenkins.ShiftDownDrops | reproduce/include/uthash.h:698-722 | a right shift by k is the quotient by 2^k |
| Jenkins.PlusMinusWrap | reproduce/include/uthash.h:694-775 | sums and differences wrap at 2^32 |
| HashExample.XorBytes | reproduce/include/uthash.h:698-722 | exclusive or of words is that of their bytes, bit by bit |
| Jenkins.MixBijective | reproduce/include/uthash.h:694-723 | the mix is a bijection on triples of 32-bit words, with an explicit inverse on both sides |
| Jenkins.HashJen | reproduce/include/uthash.h:725-775 | the loop and the falling-through switch compute `Hash` for keys of every length |
| Jenkins.BlockInjective | reproduce/include/uthash.h:732-774 | keys of one length that differ within one aligned block of twelve bytes leave different accumulators |
| Jenkins.ShortKeysInjective | reproduce/include/uthash.h:725-775 | on keys of one length up to twelve, so on pids, equal final accumulators mean equal keys |
| HashExample.HashOfOne | reproduce/include/uthash.h:725-775 | the key of pid 1 hashes to 0x6217f7a5 |
| HashExample.HashOfLong | reproduce/include/uthash.h:725-775 | the key of the bytes 1 to 23, one full block and a rest of eleven, hashes to 0x872863ac |
| Registry.PidKeyInjective | reproduce/include/hashtable.h:10 | different pids have different key bytes |
| Registry.PidKeySpells | reproduce/src/hashtable.c:21 | the key bytes are the pid modulo 2^32, lowest byte first |
| Registry.ProcessTable.constructor | reproduce/src/hashtable.c:11-15 | the registry starts empty, without a table |
| Registry.ProcessTable.Find | reproduce/src/hashtable.c:18-23 | returns the record of the pid, with its clock, exactly when the pid is in the map, through hash and buckets |
| Registry.ProcessTable.Insert | reproduce/src/hashtable.c:26-45 | a new pid goes last with the initial clock; a duplicate changes nothing and returns false |
| Registry.ProcessTable.Delete | reproduce/src/hashtable.c:48-57 | removes exactly that pid; an absent pid changes nothing |
| Registry.ProcessTable.IsEmpty | reproduce/src/hashtable.c:66 | true exactly when the map is empty, which is exactly when the table's head is null |
| Registry.ProcessTable.SetClock | reproduce/src/syscalls.c:63-64 | the in-place clock update changes that pid's clock and nothing else in the map |
| Registry.CountsAgree | reproduce/src/hashtable.c:43-55 | the separate entry counter, the table's item count and the size of the map are equal |
| Memory.LeRoundTrip | reproduce/src/putils.c:181-206 | eight bytes read as a word and written back are the same bytes |
| Memory.ToLeByte | reproduce/src/putils.c:181-206 | byte k of a word is its digit k to the base 256: memory is little-endian |
| Memory.Process.ReplaceBuf | reproduce/src/putils.c:175-210 | whole-word pokes and the read-modify-write tail compute `Blitted`, whatever is mapped and whenever the process vanishes |
| Memory.BlitExact | reproduce/src/putils.c:175-210 | the blit completes if and only if the process outlives it and every touched word is mapped; then exactly the bytes from dest to dest + len are the source's and all others are as before |
| Memory.BlitGone | reproduce/src/putils.c:175-210 | the blit ends with the process gone if and only if the process answers fewer requests than it makes and every word it is asked about is mapped; then exactly the whole words answered for have been written |
| Memory.BlitVanishes | reproduce/src/putils.c:179-208 | if the process is gone at the k-th poke, the tail's included, exactly the first 8(k-1) bytes have been written, whatever is mapped beyond them |
| Memory.BlitTailFaults | reproduce/src/putils.c:188-199 | a one-byte buffer right before an unmapped byte makes the tracer exit |
| CString.ReadCString | reproduce/src/putils.c:127-167 | leaves the first min(L, 1023) bytes of the string and a NUL in the 1024-byte buffer, never writing past it |
| CString.StringReadExact | reproduce/src/putils.c:133-143 | the read completes if and only if the process outlives it and each word up to the string's end is mapped and is not -1 |
| CString.ReadDecides | reproduce/src/syscalls.c:23-24 | a completed read equals a short string exactly when memory holds that whole string: truncation makes no false match |
| CString.OnesRefused | reproduce/src/putils.c:135-143 | a path with eight bytes 0xff in one of its words cannot be read: the tracer exits |
| Observed.BufferTakes | reproduce/src/putils.c:126-163 | of a string of any length the buffer takes its first 1023 bytes |
| Vdso.RemoveVdso | reproduce/src/vdso.c:22-94 | both scans end on every memory and compute `VdsoRemoved` |
| Vdso.VdsoExact | reproduce/src/vdso.c:38-93 | on an initial stack the patch completes if and only if no scanned word is -1, and then leaves the same layout with the first AT_SYSINFO_EHDR key turned into AT_IGNORE, or unchanged memory if there is none; values of 0 or 33 never mislead it |
| Vdso.PatchedReads | reproduce/src/vdso.c:72-73 | a reader of the patched vector finds for every key but 1 and 33 what it found before, and a single key 33 no more |
| Vdso.PatchedBytes | reproduce/src/vdso.c:73 | the patch is a byte 1 and seven zero bytes where the first key 33 was, and nothing else |
| Vdso.LayoutWords | reproduce/src/vdso.c:38-58 | the layout, word by word, as sections 3.4.1 and 3.4.3 of the System V AMD64 psABI order it |
| Vdso.ScanCut | reproduce/src/vdso.c:43-47 | on a stack that the scan can get through it never fails, however soon the process vanishes |
| Vdso.ScanDecided | reproduce/src/vdso.c:38-93 | on any memory: the scan completes if and only if the words above the stack pointer, read as two zero-terminated lists and pairs without a -1, reach the key AT_NULL or AT_SYSINFO_EHDR, and changes nothing if and only if AT_NULL comes first |
| Vdso.FindInAux | reproduce/src/vdso.c:56-93 | the second scan looks at keys only and stops at the first AT_SYSINFO_EHDR |
| Vdso.WordStored | reproduce/src/vdso.c:73 | storing one word changes that word of a layout and no other |
| Syscalls.CancelSyscall | reproduce/src/putils.c:212-229 | the call number becomes -1 before the process is resumed and waited for |
| Syscalls.RedirectDevRandom | reproduce/src/syscalls.c:20-30 | computes `Redirected`: a random device's open runs on and returns the tracer's stdin, any other is left alone |
| Syscalls.HandleSyscall | reproduce/src/syscalls.c:33-117 | the switch computes `Handled` on the process and updates the clock in its record, nothing else in the registry |
| SyscallFacts.AnswerExact | reproduce/src/putils.c:169-229 | cancel, blit and return together leave the process at the exit of a call the kernel never ran, with the answer in memory and the result in rax |
| SyscallFacts.GetrandomExact | reproduce/src/syscalls.c:39-52 | for every address and length exactly that range is 0x22, all other bytes are unchanged, and the result is the length; it completes if and only if the words touched are mapped |
| SyscallFacts.TimeExact | reproduce/src/syscalls.c:54-99 | a time call that completes moves the clock one tick and stores exactly the reported instant |
| SyscallFacts.OpenatExact | reproduce/src/syscalls.c:102-104 | openat is redirected exactly when the process's full path is /dev/random or /dev/urandom; otherwise the process is left exactly as it was |
| SyscallFacts.OpenatRefused | reproduce/src/syscalls.c:20-22 | an openat of such a path makes the tracer exit |
| Observed.GetrandomSeen | reproduce/src/syscalls.c:39-52 | in numbers: call 318, buffer in rdi, length in rsi, bytes 0x22, result the length, call number -1 |
| Observed.TimeSeen | reproduce/src/syscalls.c:54-99 | in numbers: calls 96, 201 and 228, the register of the buffer, seconds and nanoseconds byte by byte, the result, the next clock, and nothing else in memory |
| Observed.FirstTime | reproduce/src/hashtable.c:38-40 | a new process that asks first is told 1718099106 seconds and 516453925 nanoseconds |
| Observed.OpenSeen | reproduce/src/syscalls.c:20-30 | in numbers: a readable path of call 257 or 437 that spells "/dev/random" or "/dev/urandom" ends at the call's exit with result 0, any other is left alone |
| Observed.OtherCalls | reproduce/src/syscalls.c:114-115 | a call with any other number is left alone |
| Observed.NeverExecuted | reproduce/src/syscalls.c:32-99 | over every run the kernel executes no call 96, 201, 228 or 318 |
| Events.Tracer.constructor | reproduce/src/main.c:87-95 | the loop starts with the first child registered, in a registry and buffer of its own |
| Events.Tracer.ProcInit | reproduce/src/proc_init.c:11-18 | removes the vDSO and lets the process run, unless it is gone |
| Events.Tracer.RegisterNewChild | reproduce/src/events.c:46-65 | a new child is registered, its first stop consumed and it is let run; one already tracked is not touched |
| Events.Tracer.Step | reproduce/src/events.c:87-130 | one event through the loop body computes `Handle` on registry and processes |
| Events.Tracer.HandleEvents | reproduce/src/events.c:67-132 | the loop over the pointer-based registry computes `Loop` |
| Events.Trace | reproduce/src/main.c:87-98 | from the first child on, the tracer with its pointer-based registry computes `Loop` |
| Phases.EventKeeps | reproduce/src/events.c:87-130 | every legal event keeps the phase invariant: between stops no process is inside an emulated call and the kernel has run none, whatever threads do to each other's memory |
| Phases.HandledUntold | reproduce/src/syscalls.c:33-117 | whatever the stop, and even if the tracer exits, the handler makes the kernel run no emulated call |
| Phases.RunKeepsPhases | reproduce/src/events.c:67-132 | over every run, in whatever way it ends, the kernel has run no emulated call; and the invariant holds as long as the tracer goes on |
| Phases.StartSettled | reproduce/src/main.c:87-95 | the tracer's start satisfies it |
| Phases.OpenExit | reproduce/src/syscalls.c:20-30 | at the exit of an open call the path is read again: nothing happens if and only if it can be read and is no random device; if it has become one, the process runs on to its next call, whose registers are overwritten by those of the open |
| Phases.OtherStopsPass | reproduce/src/syscalls.c:32-117 | at a stop that is not a fresh entry the handler changes neither process nor clock, if and only if it is not the exit of an open whose path no longer reads as an ordinary one |
| Phases.AnsweredOnce | reproduce/src/syscalls.c:32-99 | a system-call stop is an entry exactly when the process had left its previous call; an emulated call is answered there, once, without running, and left at its exit; at other stops nothing happens if and only if no open returns with its path turned into a random device |
| Phases.CallSwallowed | reproduce/src/syscalls.c:20-30 | the failing case: that open's exit leaves the process at an entry, inside the same open again, with its next call and that call's memory lost |
| Answering.RunTally | reproduce/src/syscalls.c:33-117 | over every run the emulated calls a process makes are those answered plus those swallowed |
| Answering.AllAnswered | reproduce/src/syscalls.c:20-99 | in every run all emulated calls of a process are answered if and only if none of its opens returns, its path turned into a random device, right before one of them |
| LateOpenExample.ExampleSwallowed | reproduce/src/syscalls.c:20-30 | a legal run from the tracer's start, with a thread that rewrites the path of an openat in progress, after which a getrandom is never answered |
| Scheduling.RunView | reproduce/src/events.c:71-131 | after any run a process is exactly where its own history, up to the end of the loop, brings it; also if the tracer exits, unless over a stop that concerns that process |
| Scheduling.RunSeen | reproduce/src/events.c:71-131 | in any run all states a process is left in, written bytes and results included, are the beginning of what its own history produces alone |
| Scheduling.SchedulingIndependence | reproduce/src/syscalls.c:33-99 | in any two runs that give a process the same start and the same history, the states it is left in, with registers, memory, executed calls and clock, agree up to the end of the shorter one; they are all the same exactly when both loops come equally far in that history |
| Exits.ExitExact | reproduce/src/events.c:87-130 | the tracer exits at a legal event if and only if an answer does not fit into mapped words, a path is unreadable, or the vDSO scan of a new process or program comes to no end, each a condition on memory |
| Exits.VanishedGoesOn | reproduce/src/vdso.c:43-47 | a process that vanishes during the vDSO scan does not end the tracer; only a failing request does |
| Exits.RunExits | reproduce/src/events.c:67-132 | a legal run is taken to its end if and only if none of its events is such a one |
| Exits.WholeHistory | reproduce/src/syscalls.c:33-99 | in legal runs without such an event a process lives through its whole history and through the same states, whatever else runs |
| Exits.ExitFelt | reproduce/src/putils.c:133-143 | the failing case: with an emulated call of one process and an unreadable path of another, the order decides whether that call is answered, although each has the same history |
| ExitExample.ExampleFelt | reproduce/src/putils.c:133-143 | two legal runs from the tracer's start in which this happens |
| Exits.LeftBehind | reproduce/src/events.c:71-91 | if the last registered process ends before a forked child's first stop is seen, the loop leaves and the child is never let run; in the other order it is |
| Scheduling.LateForkEvent | reproduce/src/events.c:46-55 | a late fork event never resets a clock and leaves the child alone |
| Scheduling.AfterParentFirst | reproduce/src/events.c:104-108 | parent's event first: the child is registered once with the initial clock, its first stop consumed, and it runs |
| Scheduling.AfterChildFirst | reproduce/src/events.c:114-120 | child's stop first: the same, after a vDSO scan of its memory; the tracer goes on if and only if the words above the child's stack pointer reach one of the two keys |
| Scheduling.RaceConfluent | reproduce/src/events.c:104-120 | both orders end in the same world if and only if the words above the child's stack pointer, read as two zero-terminated lists and pairs, reach AT_NULL before AT_SYSINFO_EHDR; the child-first order makes the tracer exit if and only if they reach neither |
| Scheduling.RacePatched | reproduce/src/events.c:115-117 | if they reach AT_SYSINFO_EHDR, both orders go on and differ in exactly that word |
| Scheduling.RaceHistories | reproduce/src/events.c:104-120 | if they reach AT_NULL, the two histories of the child are one, whatever it does before its parent's event is seen and afterwards: the same states, the late event repeating one |
| Scheduling.RaceUnfelt | reproduce/src/events.c:46-55 | so in any two runs that see the two stops in opposite orders, with anything in between, the child is left in the same states as far as they go |
| Scheduling.RaceDiverges | reproduce/src/events.c:115-117 | on a child whose stack looks like an initial one with the vDSO key, the two orders end differently |
| RaceExample.ExampleDiverges | reproduce/src/events.c:104-120 | two legal runs from the tracer's start, over an execve and a fork that copies registers and memory, that differ only in which of the two stops is seen first, and end differently |
| RaceExample.ExampleExits | reproduce/src/events.c:115-117 | the same with a -1 among the words: one order makes the tracer exit, the other does not |
| Clocks.EventClock | reproduce/src/syscalls.c:54-99 | an event changes a process's clock only by one tick when it stops at the entry of its own time call, or by registering it |
| Clocks.ExitClock | reproduce/src/syscalls.c:69-84 | the tracer's exit leaves all clocks alone, except that `time` has ticked before its answer is stored |
| Clocks.DiaryAccurate | reproduce/src/syscalls.c:54-99 | over every run, in whatever way it ends, clock (but for a tick cut short), seconds told and all sixteen bytes left in the buffer follow from the number and kinds of the process's own answered time calls since registration |
| Clocks.VirtualClock | reproduce/src/hashtable.c:38-40 | from the tracer's start, in whatever way the run ends, k answered time calls leave the clock at (1718099106 + k, 516453925 + k), one tick further if the tracer exited over a `time` call, and call i was told exactly the seconds for i and sent exactly the bytes of that timespec |
| Clocks.ToldMonotone | reproduce/src/syscalls.c:63-98 | mixed time calls never report decreasing seconds; tv_nsec stays below 10^9 exactly while k < 483546075 |
| Ledger.Conservation | reproduce/src/hashtable.c:27-57 | in every run the registry's size is its start plus successful inserts minus effective deletes, and a pid is registered exactly when its last change was an insert |
| Ledger.LoopLeaves | reproduce/src/events.c:71-91 | with events still to come the loop leaves only when every pid inserted has been deleted since its last insertion |

## Left out

- Handles and elements: one hash handle per element, so `hho`, the `tbl` pointers, `signature` and the macro family for other handle names are not there; the table record is part of the `Table` object, and no table is the empty value.
- Key and hash value are fixed when an element is made; the macros write them at the add.
- Counters (`num_items`, `num_buckets`, `_hs_insize`, `expand_mult`, clock seconds) do not wrap; key lengths stay below 2^32. Hash arithmetic does wrap, at 32 bits.
- Allocation always succeeds: no `HASH_NONFATAL_OOM`. No Bloom filter, as in this build.
- `HASH_SELECT`, `HASH_REPLACE`, `HASH_CLEAR`, the other hash functions, the string and pointer convenience forms: unused by the tracer.
- A comparison function sees element references and their fixed fields only, so it does not change its mind while links are rewritten.
- A bound of 10 * (multiplier + 1) on chain lengths is not claimed: a doubling may leave a bucket above its new threshold. The closed-form bound of `TableRuns.ExpansionStatistics` holds instead, right after a doubling.
- TableRuns.ExpansionInhibited: holds while the table is never emptied; deleting the last element frees the record and the next add starts afresh, as in the code.
- Jenkins.ShortKeysInjective: about all three accumulators; the 32-bit hash alone is not injective on keys in general, and nothing is claimed about it alone.
- The kernel's processes are values (`Tracee`) in a map, handed to the handler as a `Process` object and put back; requests made to two processes at once are not modelled.
- Addresses are unbounded integers: a request never wraps around the top of the address space.
- `PTRACE_GETREGS` succeeds and is not counted as a request; `PTRACE_GETEVENTMSG` succeeds.
- `read_child_c_string` returning NULL for a vanished process makes the source compare through a null pointer; the model lets the tracer exit there.
- Signal-delivery stops, group stops and a child that dies while `register_new_child`, `child_cancel_syscall` or `child_continue_syscall` waits for it.
- What the kernel does is stated in `Phases.Legal`: a process stops only while it runs, and fork and exec events lie inside such calls. Memory that threads share is one memory per process here, which the environment may rewrite between any two stops.
- Phases.AnsweredOnce: like the other results of `Phases`, `Clocks` and the race, for processes that do not vanish between two requests of one stop (`Life` is `Forever` there; an exit is an event). What a handler leaves when a process does vanish is in `Syscalls.Handled` and `Memory.BlitVanishes`.
- `time` and `gettimeofday` write a whole 16-byte timespec, as coded; no claim is made that this is what their callers expect.
- The path decision is proved for openat, on the path as it reads at the stop; what the kernel reads from a path that a thread changes afterwards is not modelled. `open` and `openat2` run the same code on the second argument, as in the source, and nothing is claimed about the path of `open`.
- Clocks.ToldMonotone: monotone while the seconds fit a 64-bit word.
- The ECHILD break of the loop, logging, `main` before the loop, `child_syscall`, printrandom, the Python tests and the build files.
