# Durable delivery, proved

This project models the durable delivery layer of Sysinspect and proves what it keeps over every run:
the minion's journal, the disk-persistent queue, the content-addressed data store, and around them the
replay guard, the session history, the sensor configuration loader, the quoting of remote shell commands
and the hub of event-id leases.

Each durable component is modelled twice. A class has the source's trees or files as fields and the
source's methods and loops. Beside it, functions on a plain `Disk` value give the exact list of
single-tree writes (or file-system steps) that each operation issues. In each class one method, `Issue`,
performs one write and records it; every operation is built from it and is proved to issue exactly its
list, in that order. A stop of the process may come after any write, so a run is a sequence of operations
each cut at an arbitrary point, and the safety theorems range over all such runs. A call that is made of
several operations (an append with its evictions, the runner's loop, an add that collects) issues the writes
of those operations one after the other. Stopped anywhere after any run, it has continued that run by its own
operations in their order, all finished but the last (`JournalCalls.StoppedCallIsRun`,
`QueueRunner.StoppedLoopIsRun`), or it is itself an event of the runs (`StoreRuns.AlwaysReady`).

Some of the source's loops need not end. The methods that contain them take a number of turns for which
the call is watched, and say whether it has returned by then; so the contracts hold of every call, and
separate theorems say exactly which calls return.

| files | what they hold |
|---|---|
| `Wrappers`, `Sorting`, `Bytes`, `Trees`, `Writes`, `Utf8`, `Unicode` | an optional value; stable sorting and filtering; byte order and the big-endian codec; payload sums; lists of writes and their prefixes; lossy UTF-8 decoding, and the encoding it is judged by |
| `JournalDisk`, `JournalLayout`, `JournalSafety`, `JournalCalls`, `Journal` | the journal: writes, keys and counters in bytes, safety under stops, calls of several operations, the class |
| `JournalEviction`, `JournalTermination`, `JournalBudget` | the eviction loop: its turns, exactly when it ends, and what is then left in bytes |
| `JournalView`, `JournalStats`, `JournalHistory`, `JournalMap`, `JournalSplit`, `JournalWitnesses` | the listing; the counters; what the history leaves each cycle; the journal as a map from cycles to payloads with a byte budget; when a cycle is listed twice; runs on which comments do not hold |
| `QueueDisk`, `QueueSafety`, `QueueMisuse`, `QueueRunner`, `Queue` | the job queue: writes and clients, no loss and the delivery bound, clients without discipline, what the runner executes, the class with its runner |
| `StoreDisk`, `StoreSafety`, `StoreGc`, `StoreRuns`, `StoreLife`, `Store` | the data store: file steps, readiness, garbage collection, runs and the size limit, the life of an object in clock readings, the class |
| `Scopes`, `SensorLoad` | which sensor files are loaded and in which order; the first-wins merge |
| `Sessions`, `Replay`, `EidHub`, `Shell` | session trimming; replay keys and claims; event-id leases; shell quoting |

`dafny verify dfyconfig.toml` checks the whole project.

## Assumptions

- After a stop the durable state is the effect of a prefix of the writes issued; one tree write, one
  rename and one file removal are atomic and succeed.
- One caller at a time uses a journal, a queue or a store; operations of the lease hub are atomic.
- Clock readings are parameters. The lease hub's clock does not go back.
- Integer arithmetic is that of a release build: the journal's counter wraps as two's complement, its
  sequence numbers wrap, the queue's ids and the store's totals saturate.
- A payload is shorter than 2^63 bytes. Runs of the journal have fewer than 2^64 appends and runs of the
  queue fewer than 2^64 - 1 adds, except where a lemma is about the end of the number space.
- The content hash is a parameter; it is injective where a lemma requires it. A file does not change
  while it is added to the store.
- Paths are absolute and the directory tree does not change while it is read. The order in which a
  directory of the store lists its files depends only on which files there are; any such order will do.

## Where the code and its comments part

The model follows the code. The lemmas named here state exactly when the described behaviour is met, and
show a run on which it is not.

- A byte budget is promised (`libsysinspect/src/journal.rs:3-5`), but the eviction loop need not end. The
  id it evicts is decoded from a key at the key's last colon byte, and that can lie inside the sequence
  number. `JournalTermination.TerminatesIff` gives the exact condition on the keys and the counter before
  the call: going through the visible keys from the smallest and striking off what each decoded id covers,
  nothing is left, or what is left fits the budget together with the hidden entries. The first sequence
  number that can get in the way is 0x803A (`JournalEviction.FirstUncleanSeq`), and plain calls lead there
  (`JournalEviction.EvictionCanHang`).
- "The oldest cycle is evicted" means the smallest key in byte order (`JournalEviction.OldestKey`), not the
  earliest in time (`JournalWitnesses.LaterCycleEvicted`).
- Where eviction ends, the counter meets the budget exactly when the hidden entries, those of ids that start
  with `__`, leave it room; these are never listed and never evicted (`JournalWitnesses.HiddenIdOverBudget`).
  The bytes themselves meet it only up to what the counter lacks (`JournalBudget.BudgetMet`): an append that is
  stopped between its entry and its counter can leave the journal above its budget, and eviction does nothing
  about it (`JournalWitnesses.StoppedAppendOverBudget`). Hidden entries apart, every budget is met in bytes
  exactly where the counter is exact, no visible entry holds a byte, or there is at most one byte
  (`JournalBudget.MeetsEveryBudgetIff`). One given budget is missed exactly where some number of turns takes
  enough for the counter but not for the bytes (`JournalBudget.BudgetMissedIff`). The counter lacks at most one
  payload per stop (`JournalBudget.GapBounded`, `JournalBudget.BudgetAfterStops`).
- `pending()` is documented to return all un-acked cycles. It skips an entry exactly when its id starts
  with `__` or its encoded sequence number has a 0x3A byte (`JournalView.DecodedExact`,
  `JournalView.ListingComplete`), 58 being the first such number (`JournalWitnesses.FirstSkippedSeq`,
  `JournalWitnesses.LastOf59Skipped`). `stats()` counts such entries all the same (`JournalView.StatsAgree`,
  `JournalStats.StatsExact`, `JournalWitnesses.StatsOf59`).
- Acknowledging `a` also frees `a:b` (`JournalView.AckFreesOneCycle`, `JournalWitnesses.AckFreesContinuation`),
  and an id that continues another after a colon can make `pending()` list the other twice
  (`JournalSplit.ListedOnceIff`, `JournalWitnesses.ColonSplitsCycle`).
- An acknowledgement does not clear the local completion mark of a cycle that is already acknowledged
  (`JournalSafety.CompletionOutlastsAckIff`, `JournalWitnesses.CompletionStays`).
- The example for `start` (`libdpq/src/lib.rs:339-348`) settles a delivery that the runner settles again.
  A job is lost exactly when it is acknowledged while it is pending (`QueueMisuse.JobLostIff`), and a nack
  followed by that ack does it (`QueueMisuse.NackThenAckLosesJob`, `QueueMisuse.NackUnderStart`).
- The store is documented to enforce its limit oldest first (`libdatastore/src/resources.rs:174`). However often
  it is opened anew, while nothing is added under a higher limit the total never exceeds it, at any stop
  (`StoreRuns.AlwaysWithinLimit`). So until the limit is lowered the removal of the oldest does not come into
  play, and every collection is an expiry (`StoreRuns.CollectionsOnlyExpire`). A content that does not fit on
  top of the total is refused unless an expiry makes room, even if it is stored already and needs none
  (`StoreRuns.RefusedIff`, `StoreRuns.StoredContentRefused`).
- In a store that is opened with a smaller limit, garbage collection ends within the limit exactly when the
  data without a readable record fits it (`StoreGc.WithinLimitIff`, `StoreRuns.StoppedAddOutlivesCollection`).
- With a record that someone else has put there and that names an object that is not, garbage collection
  need not end (`StoreGc.EndsIff`, `StoreGc.LoneMisnamedHangs`). The store itself writes no such record
  (`StoreRuns.AlwaysNamed`), and without one the collection always ends (`StoreGc.NamedFloor`).
- Replay keys join fields with `|`; a key stands for one identity exactly when no field of it holds one
  (`Replay.KeyUniqueIffPlain`).

## Model

| member | source | states |
|---|---|---|
| `Bytes.Be64Bijective` | libdpq/src/lib.rs:92-105 | encoding and decoding of 64-bit numbers are inverse on all numbers and all eight-byte strings |
| `Bytes.Be64Order` | libdpq/src/lib.rs:92-95 | byte order of encoded numbers is numeric order, so tree order is id order |
| `Bytes.PrefixIsInterval` | libsysinspect/src/journal.rs:137-139 | the keys under one prefix are contiguous in byte order |
| `Bytes.LtIff` | libsysinspect/src/journal.rs:124-125 | byte order in full: a proper beginning comes first, else the first different byte decides |
| `Utf8.LossyIdentityIffValid` | libsysinspect/src/journal.rs:131 | lossy decoding keeps a byte string if and only if it is well-formed UTF-8 |
| `Utf8.LossyMarksMalformed` | libsysinspect/src/journal.rs:131 | a malformed string decodes to one with the bytes of U+FFFD in it |
| `Unicode.ValidIff` | libsysinspect/src/journal.rs:131 | well-formed is exactly what encodes a list of scalar values, by the arithmetic of the encoding |
| `Unicode.LossyStep` | libsysinspect/src/journal.rs:131 | lossy decoding keeps each encoded scalar value, and replaces the longest part that could still have become one, or one byte, by EF BF BD |
| `JournalSafety.PendingKeyParts` | libsysinspect/src/journal.rs:57-63 | id and sequence number can be read back from a key by position for every id, colons included |
| `JournalSafety.PendingKeyInjective` | libsysinspect/src/journal.rs:57-63 | two entries share a key if and only if they have the same id and number |
| `JournalLayout.EntryKey` | libsysinspect/src/journal.rs:57-67 | a key is the id, the byte 0x3A and eight bytes; it is visible unless its id starts with 0x5F 0x5F |
| `JournalLayout.NumbersWrap` | libsysinspect/src/journal.rs:72-79 | an append takes the stored number, 0 where there are no eight bytes, and stores the successor modulo 2^64; on any disk |
| `JournalLayout.CounterReads` | libsysinspect/src/journal.rs:93-100 | the counter is read from eight bytes under "__total_bytes", as 0 where there are fewer |
| `JournalLayout.CounterArithmetic` | libsysinspect/src/journal.rs:85-91 | it moves in 64-bit two's complement and is clamped at zero, for all values |
| `JournalLayout.EvictsIff` | libsysinspect/src/journal.rs:102-122 | a turn of eviction writes if and only if there is a budget, the counter exceeds it and some key does not start with two underscores |
| `JournalSafety.AddTotalEffect` | libsysinspect/src/journal.rs:85-91 | the counter moves by the signed difference, and falls to zero exactly when the result leaves the non-negative 63-bit range |
| `JournalSafety.AppendEffect` | libsysinspect/src/journal.rs:158-170 | a finished append adds one entry under a free key, un-acknowledges the cycle and keeps an exact counter exact |
| `JournalSafety.AppendSafe` | libsysinspect/src/journal.rs:158-170 | whatever part of an append reaches the disk, the disk stays safe and all earlier entries are there |
| `JournalSafety.AckSafe` | libsysinspect/src/journal.rs:137-153 | whatever part of an acknowledgement reaches the disk, it stays safe and only keys under the prefix can be gone |
| `JournalSafety.AckEffect` | libsysinspect/src/journal.rs:137-153 | a finished acknowledgement frees exactly the keys under the prefix, marks the cycle, clears its completion mark and keeps an exact counter exact |
| `JournalLayout.StoppedAckInOrder` | libsysinspect/src/journal.rs:137-153 | wherever an acknowledgement is stopped: the entries that are gone come before those left, the cycle is marked only when none is left, and its completion mark goes only after that |
| `JournalSafety.CompletionOutlastsAckIff` | libsysinspect/src/journal.rs:172-187 | a completion mark outlasts an acknowledgement exactly when the cycle was already acknowledged; a second acknowledgement writes nothing |
| `JournalSafety.StepSafe` | libsysinspect/src/journal.rs:102-187 | every operation, stopped after any write, keeps the disk safe |
| `JournalSafety.CrashSafety` | libsysinspect/src/journal.rs:72-187 | over every run with stops anywhere: recorded total at most the pending bytes, acknowledged cycles have no entries, next numbers above those in use |
| `JournalSafety.EvictionNeedsRealOverflow` | libsysinspect/src/journal.rs:102-122 | in every reachable state eviction writes nothing while the pending bytes fit the budget |
| `JournalSafety.EntrySurvives` | libsysinspect/src/journal.rs:102-187 | an entry goes, under any stop, only by an acknowledgement or eviction whose prefix its key carries; its payload never changes |
| `JournalSafety.AppendedStaysPending` | libsysinspect/src/journal.rs:102-187 | over every run, stopped anywhere: an entry whose append has finished is pending with its payload as long as no acknowledgement and no turn of eviction covers its key |
| `JournalSafety.CounterExact` | libsysinspect/src/journal.rs:85-91 | when every operation finishes the counter is exactly the number of pending bytes |
| `JournalEviction.RoundEffect` | libsysinspect/src/journal.rs:106-121 | one turn of eviction frees exactly the keys under the decoded prefix, keeps the disk safe, and changes nothing within budget |
| `JournalEviction.DrainingTerminates` | libsysinspect/src/journal.rs:106-121 | a loop whose turns all free entries ends after at most as many turns as there are entries |
| `JournalEviction.StuckForever` | libsysinspect/src/journal.rs:106-121 | a turn that frees nothing is followed by the same turn for ever |
| `JournalTermination.TerminatesIff` | libsysinspect/src/journal.rs:102-122 | the loop ends if and only if every visible key is reached from the smallest on, or the counter fits the budget once all but the hidden and the unreached entries is freed; in any safe state, exact counter or not |
| `JournalTermination.TerminatesIffExact` | libsysinspect/src/journal.rs:102-122 | on an exact counter: if and only if every visible key is reached, or the bytes of the hidden and the unreached entries fit the budget |
| `JournalTermination.RoundKeys` | libsysinspect/src/journal.rs:124-153 | a turn strikes off exactly the visible keys under the id decoded from the smallest one |
| `JournalTermination.StrandedStays` | libsysinspect/src/journal.rs:106-121 | a turn leaves what eviction never frees as it is |
| `JournalEviction.OldestKey` | libsysinspect/src/journal.rs:124-135 | an id to evict is found exactly when a visible entry exists, and comes from the smallest visible key |
| `JournalEviction.CleanIffSeq` | libsysinspect/src/journal.rs:130-131 | whether a key decodes to text that is its own prefix depends on its sequence number alone, by a stated condition on its bytes |
| `JournalEviction.FirstUncleanSeq` | libsysinspect/src/journal.rs:130-131 | 0x803A is the first sequence number whose key does not |
| `JournalEviction.CleanTerminates` | libsysinspect/src/journal.rs:102-122 | with clean keys only the loop ends, whatever the budget, after at most as many turns as there are entries |
| `JournalEviction.UncleanNeverFreed` | libsysinspect/src/journal.rs:130-139 | the id decoded from an unclean key never frees that key |
| `JournalEviction.FreesOldestIffClean` | libsysinspect/src/journal.rs:106-121 | without U+FFFD in the keys a turn frees an entry if and only if the smallest visible key is clean |
| `JournalEviction.LoneUncleanHangs` | libsysinspect/src/journal.rs:106-121 | over budget with one visible unclean entry the loop never ends |
| `JournalEviction.EvictionCanHang` | libsysinspect/src/journal.rs:102-122 | a concrete sequence of appends and one acknowledgement after which an append never returns |
| `JournalEviction.RoundsKeepHidden` | libsysinspect/src/journal.rs:127-129 | no number of turns touches entries of ids that start with `__` |
| `JournalBudget.BudgetMet` | libsysinspect/src/journal.rs:102-122 | in any safe state, exact counter or not: where eviction has ended, the counter meets the budget if and only if the hidden entries less what the counter lacked fit it; what it lacks has not grown; and the bytes are within the budget plus that, unless only hidden entries are left |
| `JournalBudget.MeetsEveryBudgetIff` | libsysinspect/src/journal.rs:3-5 | hidden entries apart, eviction that ends meets every budget in bytes if and only if the counter is exact, or all bytes are hidden, or there is at most one byte |
| `JournalBudget.BudgetMissedIff` | libsysinspect/src/journal.rs:102-122 | for one budget, in any safe state: where eviction has ended the bytes exceed it although visible bytes are left, if and only if some number of turns, on the course given by the keys alone, takes enough for the counter but not for the bytes |
| `JournalBudget.AckGap` | libsysinspect/src/journal.rs:137-153 | an acknowledgement stopped anywhere leaves the counter behind by one more payload at most, a finished one by nothing more |
| `JournalBudget.AppendGap` | libsysinspect/src/journal.rs:158-170 | the same for an append; stopped before its counter write it leaves the counter behind by exactly its payload |
| `JournalBudget.GapBounded` | libsysinspect/src/journal.rs:72-187 | over every run, stopped anywhere, of appends of at most m bytes: the counter lacks at most m bytes per stop and is never ahead |
| `JournalBudget.BudgetAfterStops` | libsysinspect/src/journal.rs:102-122 | after any such run, where eviction has ended, the bytes exceed the budget by at most m per stop, unless only hidden entries are left |
| `JournalCalls.CallEffect` | libsysinspect/src/journal.rs:157-170 | the writes of an append and its eviction turns, one after the other, come to the append followed by the turns |
| `JournalCalls.StoppedCallIsRun` | libsysinspect/src/journal.rs:157-170 | an append with its evictions, stopped after any of its writes after any run: that same run, continued by this append and then by turns of eviction, of which only the last can be unfinished, and none if the stop comes after the last write |
| `JournalCalls.StoppedCallGap` | libsysinspect/src/journal.rs:157-170 | such a call leaves the counter behind by at most one payload more than the run before it, and by nothing more if it is not cut short |
| `JournalCalls.StoppedCallKeeps` | libsysinspect/src/journal.rs:157-170 | wherever it is stopped, it has lost no entry that the finished call leaves, altered no payload, and added nothing but its own entry |
| `JournalCalls.StoppedCallSafe` | libsysinspect/src/journal.rs:102-170 | such a call, or the eviction loop alone, stopped anywhere, leaves a safe disk |
| `JournalView.DecodedExact` | libsysinspect/src/journal.rs:223-235 | splitting at the last colon recovers id and number if and only if the id is not hidden and no byte of the encoded number is 0x3A; otherwise the entry is skipped |
| `JournalView.GroupedFlatten` | libsysinspect/src/journal.rs:236-242 | concatenating the listed cycles gives back the shown entries in their order |
| `JournalView.Contiguous` | libsysinspect/src/journal.rs:218-245 | with colon-free ids the entries of one cycle stand together |
| `JournalView.ListingComplete` | libsysinspect/src/journal.rs:218-245 | the listing shows exactly the entries that decode, with id, number and payload |
| `JournalView.ListingOrdered` | libsysinspect/src/journal.rs:217-245 | with colon-free ids each cycle is listed once, its numbers strictly increasing |
| `JournalView.AppendGoesLast` | libsysinspect/src/journal.rs:158-170 | an append goes behind everything its cycle has pending and leaves all other cycles alone, so key order is insertion order |
| `JournalHistory.ListingIsBacklog` | libsysinspect/src/journal.rs:217-245 | with colon-free ids the entries listed for a cycle are its pending entries in insertion order, less those whose number has a 0x3A byte, and a cycle is listed exactly when it is not hidden and has such entries |
| `JournalHistory.RunIds` | libsysinspect/src/journal.rs:57-63 | over every run, stopped anywhere, whose appended ids are text without colons, so are all pending ids |
| `JournalHistory.RunIdsAre` | libsysinspect/src/journal.rs:57-63 | the same for ids of any kind whatever: if all appended ids are of it, so are all pending ids |
| `JournalHistory.RunTexts` | libsysinspect/src/journal.rs:57-63 | so over every run, stopped anywhere, whose appended ids are text, colons or not, all pending ids are text |
| `JournalHistory.AckClears` | libsysinspect/src/journal.rs:172-180 | an acknowledgement clears its cycle and no other, whether or not the cycle was acknowledged before |
| `JournalHistory.EvictionTakes` | libsysinspect/src/journal.rs:106-121 | a turn of eviction takes from the cycle of the smallest visible key only, and takes all of it if that key has no 0x3A byte in its number |
| `JournalHistory.ListingIsHistory` | libsysinspect/src/journal.rs:217-245 | over every run that finishes its operations, with plain ids: the listing is the map from visible cycles to what the history of appends, acknowledgements and evictions leaves them, in order, less the entries that cannot be shown |
| `JournalMap.ReachesOne` | libsysinspect/src/journal.rs:102-187 | the machine on maps from cycles to payloads has one outcome: an append adds at the end, an acknowledgement clears, and a turn of eviction clears, while the whole map weighs more than the budget, the visible cycle whose name with a colon comes first |
| `JournalMap.OwnerIsVictim` | libsysinspect/src/journal.rs:124-135 | the cycle of the smallest visible key is the one that the map alone names |
| `JournalMap.ListingIsMap` | libsysinspect/src/journal.rs:217-245 | with plain ids and at most 58 appends to each cycle: the listing is the visible part of the map that this machine reaches, each cycle once, its payloads in order |
| `JournalView.AckFreesOneCycle` | libsysinspect/src/journal.rs:137-153 | an acknowledgement frees its cycle only, exactly when no other pending id continues it after a colon |
| `JournalSplit.GroupedOnceIff` | libsysinspect/src/journal.rs:236-242 | grouping neighbours lists every id once if and only if the entries of each id stand together |
| `JournalSplit.ListedOnceIff` | libsysinspect/src/journal.rs:218-245 | for any ids: some cycle is listed twice if and only if an id continues another after a colon and a shown entry of the longer one falls, byte for byte, between two shown entries of the shorter one |
| `JournalSplit.RunListedOnceIff` | libsysinspect/src/journal.rs:218-245 | the same after every run, stopped anywhere, whose appended ids are text |
| `JournalWitnesses.ColonSplitsCycle` | libsysinspect/src/journal.rs:236-242 | three appends to two such ids after which one is listed twice |
| `JournalWitnesses.FirstSkippedSeq` | libsysinspect/src/journal.rs:226-235 | 58 is the first number whose entry the listing skips |
| `JournalWitnesses.LastOf59Skipped` | libsysinspect/src/journal.rs:226-235 | after 59 appends to one cycle the last is pending and not listed |
| `JournalWitnesses.HiddenIdOverBudget` | libsysinspect/src/journal.rs:102-122 | one append to an id that starts with `__` after which eviction returns above the budget |
| `JournalWitnesses.StoppedAppendOverBudget` | libsysinspect/src/journal.rs:158-170 | one append above the budget, stopped before its counter write, after which eviction writes nothing |
| `JournalWitnesses.AckFreesContinuation` | libsysinspect/src/journal.rs:137-153 | an acknowledgement that frees what was appended to another id |
| `JournalWitnesses.CompletionStays` | libsysinspect/src/journal.rs:172-187 | acknowledged, completed and acknowledged again, a cycle keeps its completion mark |
| `JournalWitnesses.LaterCycleEvicted` | libsysinspect/src/journal.rs:124-135 | of two cycles the one appended later is evicted, because its key is smaller |
| `JournalView.StatsAgree` | libsysinspect/src/journal.rs:195-215 | the entry count equals the listing's if and only if no visible number has a 0x3A byte, and then so does the cycle count |
| `JournalStats.StatsExact` | libsysinspect/src/journal.rs:195-215 | on any disk: the entry count is the number of keys with a colon that do not start with two underscores; the cycle count is the number of places, in their order, where the text before the last colon changes |
| `JournalStats.RunStats` | libsysinspect/src/journal.rs:195-215 | after every run, stopped anywhere: the same of the visible entries, and the bytes reported are at most those pending |
| `JournalWitnesses.StatsOf59` | libsysinspect/src/journal.rs:195-215 | after 59 appends to one cycle: 59 entries, two cycles |
| `Journal.Journal.Issue` | libsysinspect/src/journal.rs:22-34 | performs one write on the trees and records it; every operation below is built from it |
| `Journal.Journal.NextSeq` | libsysinspect/src/journal.rs:72-79 | hands out the stored number and writes its wrapping successor |
| `Journal.Journal.AddTotal` | libsysinspect/src/journal.rs:85-91 | writes the new counter and returns the old one |
| `Journal.Journal.OldestUnackedCycle` | libsysinspect/src/journal.rs:124-135 | the walk finds the id of the smallest visible key, or none if that key has no colon |
| `Journal.Journal.FreeEntry` | libsysinspect/src/journal.rs:141-148 | issues the lowered counter, then the removal |
| `Journal.Journal.AckCycleInner` | libsysinspect/src/journal.rs:137-153 | issues exactly the writes of an acknowledgement, in order, and counts the keys under the prefix |
| `Journal.Journal.AckCycle` | libsysinspect/src/journal.rs:172-180 | an acknowledged cycle stays untouched with count 0; otherwise it is freed and marked |
| `Journal.Journal.EvictIfNeeded` | libsysinspect/src/journal.rs:102-122 | however long it is watched, it has issued exactly the writes of that many eviction turns, in order; it has returned exactly when the counter meets the budget or nothing visible is left to evict |
| `Journal.Journal.Append` | libsysinspect/src/journal.rs:157-170 | issues the writes of an append, then those of the eviction turns it is watched for; returns the number given out exactly when eviction has ended; from any safe state the bytes are then within the budget plus what the counter lacked before, unless only hidden entries are left, and exceed the budget exactly where the course of evictions stops short of it |
| `Journal.Journal.Store` | libsysinspect/src/journal.rs:158-168 | the part before eviction: un-acknowledges the cycle, then number, entry and counter; returns the number |
| `Journal.Journal.MarkCycleLocallyComplete` | libsysinspect/src/journal.rs:182-187 | adds the completion mark and nothing else |
| `Journal.Journal.GetStats` | libsysinspect/src/journal.rs:194-215 | the counting loop computes these numbers, on any disk |
| `Journal.Journal.Pending` | libsysinspect/src/journal.rs:217-245 | the grouping loop computes the listing of the disk |
| `QueueSafety.StepKeeps` | libdpq/src/lib.rs:183-325 | every queue operation, stopped after any write, keeps the invariant |
| `QueueSafety.NoJobLost` | libdpq/src/lib.rs:183-325 | over every run every unacknowledged job is pending or inflight with its payload, there are no other markers, ids are fresh, and deliveries of an id are at most 1 + its nacks + its recoveries |
| `QueueSafety.RecoveredWereInflight` | libdpq/src/lib.rs:281-325 | a recovery of an id puts back a marker that was inflight |
| `QueueSafety.OncePerLife` | libdpq/src/lib.rs:183-325 | in one life of the process a job that is not nacked is delivered at most once |
| `QueueSafety.ReopenRecoversAll` | libdpq/src/lib.rs:281-325 | reopening after any run leaves nothing inflight and exactly the unacknowledged jobs pending, with their payloads |
| `QueueSafety.FetchDeliversOldest` | libdpq/src/lib.rs:215-243 | a fetch delivers the smallest pending id with the payload it was added with; it delivers nothing exactly when nothing is pending |
| `QueueSafety.FetchTakesSmallest` | libdpq/src/lib.rs:215-243 | on any disk a fetch takes the smallest marker away: delivered and inflight if it has eight bytes and a payload, else dropped without delivery; nothing else changes |
| `QueueSafety.NextIdReads` | libdpq/src/lib.rs:119-131 | the next id is what the eight bytes of its cell stand for, and 1 where there are not eight |
| `QueueSafety.IdsCountAdds` | libdpq/src/lib.rs:119-131 | over every run ids are handed out from 1 on, one for each add that got as far as its number |
| `QueueSafety.AckedNeverAgain` | libdpq/src/lib.rs:253-258 | an acknowledged id is never delivered again, whatever stops and reopenings follow |
| `QueueSafety.LiveStays` | libdpq/src/lib.rs:183-325 | a job that is due stays due with its payload over any further run, stopped and reopened anywhere, without an acknowledgement of its id |
| `QueueSafety.AckKeepsCoverIff` | libdpq/src/lib.rs:253-258 | an acknowledgement leaves every marker with a payload if and only if its id is not pending |
| `QueueMisuse.JobLostIff` | libdpq/src/lib.rs:183-325 | over every run of clients that settle as they like: a job that is due waits under its marker with its payload if and only if it was never acknowledged while pending |
| `QueueMisuse.LostNeverDelivered` | libdpq/src/lib.rs:215-243 | a job lost that way is never delivered again |
| `QueueMisuse.NackThenAckLosesJob` | libdpq/src/lib.rs:339-361 | after any run, a nack followed by an ack loses any due job |
| `QueueMisuse.NackUnderStart` | libdpq/src/lib.rs:339-361 | the calls made for the only job when its closure nacks: the job is due, its payload gone, and a fetch delivers nothing |
| `QueueSafety.SaturatedIdIsReused` | libdpq/src/lib.rs:119-131 | at the end of the id space the next add overwrites the last job |
| `Queue.DiskPersistentQueue.Issue` | libdpq/src/lib.rs:40-47 | performs one write on the trees and records it; every operation below is built from it |
| `Queue.DiskPersistentQueue.Open` | libdpq/src/lib.rs:71-90 | opening issues the recovery's writes; only corrupt markers stay inflight |
| `Queue.DiskPersistentQueue.NextJobId` | libdpq/src/lib.rs:119-131 | hands out the stored id, 1 where it is absent or corrupt, and writes its saturating successor |
| `Queue.DiskPersistentQueue.Add` | libdpq/src/lib.rs:183-191 | writes number, payload and marker, in this order |
| `Queue.DiskPersistentQueue.Fetch` | libdpq/src/lib.rs:215-243 | moves the smallest marker, inflight first, or drops a corrupt or payload-less one; returns the job |
| `Queue.DiskPersistentQueue.Ack` | libdpq/src/lib.rs:253-258 | removes the marker, then the payload |
| `Queue.DiskPersistentQueue.Nack` | libdpq/src/lib.rs:273-279 | sets the pending marker, then removes the inflight one |
| `Queue.DiskPersistentQueue.Recover` | libdpq/src/lib.rs:298-325 | moves every sound inflight marker back, one at a time, and counts them |
| `Queue.DiskPersistentQueue.AddAll` | libdpq/src/lib.rs:183-191 | issues the writes of adds one after the other, each with the number that the one before left |
| `Queue.DiskPersistentQueue.RunOne` | libdpq/src/lib.rs:391-404 | on any disk, corrupt markers included: a turn issues the writes of a fetch and, if that delivers a job, of what other clients add meanwhile and of settling the job by the outcome; it returns the job delivered |
| `Queue.DiskPersistentQueue.RunInner` | libdpq/src/lib.rs:390-411 | on any disk, for every course of outcomes and arrivals: issues the writes of the turns up to the first fetch that delivers nothing, and returns the jobs executed, in order |
| `QueueRunner.RunnerWork` | libdpq/src/lib.rs:388-411 | with sound markers the loop executes and leaves exactly what a list of work items says, in which a success drops the head, a failure keeps it and arrivals go to the end; other deliveries stay inflight |
| `QueueRunner.RunnerPayloads` | libdpq/src/lib.rs:388-411 | every job the loop executes gets the payload it was added with: the one stored at the start, or that of the arrival that was given its id |
| `QueueRunner.StoppedLoopIsRun` | libdpq/src/lib.rs:388-411 | the loop, stopped after any of its writes after any run: that same run, continued by the fetches, adds and settlings of the loop in their order, of which only the last can be unfinished; the settling is a nack where the executor fails |
| `QueueRunner.StoppedLoopKeepsJobs` | libdpq/src/lib.rs:388-411 | wherever the loop is stopped, every job that was due before it, delivered meanwhile or not, waits under its marker with its payload, unless it is one that the loop executes with success |
| `QueueRunner.StoppedLoopKeepsArrivals` | libdpq/src/lib.rs:388-411 | so does every job whose add has finished meanwhile |
| `QueueRunner.CourseOrder` | libdpq/src/lib.rs:388-411 | the j-th execution is of the job at the place, in order of adding, given by the successes before it; so a failed job is retried before any later one |
| `QueueRunner.CoursePayloads` | libdpq/src/lib.rs:388-411 | every execution gets the payload its job was added with, arrivals included |
| `QueueRunner.ExecutedOrLeft` | libdpq/src/lib.rs:388-411 | with an executor that always succeeds, the jobs executed followed by those left are the jobs pending at first followed by the arrivals, in ascending id order |
| `QueueRunner.DrainAll` | libdpq/src/lib.rs:388-411 | with enough successful turns nothing stays pending |
| `QueueRunner.ReachableIsWorkable` | libdpq/src/lib.rs:183-325 | every state a run reaches with the process up meets what the runner needs |
| `StoreSafety.PutEffect` | libdatastore/src/resources.rs:124-155 | a stopped add has made visible nothing, the data, or data and record; corrupt stored data stops it before it writes |
| `StoreSafety.DelAllReady` | libdatastore/src/resources.rs:199-216 | any list of deletions, stopped after any step, keeps the store ready |
| `StoreRuns.AddEffect` | libdatastore/src/resources.rs:95-156 | an add comes to the collection it asks for, if there was no room, followed by the storing, if there is room then |
| `StoreRuns.StepReady` | libdatastore/src/resources.rs:95-216 | every add with the collection it asks for, every collection and every deletion, stopped after any step, keeps the store ready |
| `StoreRuns.AlwaysReady` | libdatastore/src/resources.rs:152-153 | in every state reached, under configurations that may change at any step, by adds that may collect, collections and deletions, stopped after any step, a record is readable, names its file, and its data is there whole with the right length and digest |
| `StoreSafety.CollisionReadyIff` | libdatastore/src/resources.rs:130-153 | where two contents share a digest the store stays ready if and only if they have the same length |
| `StoreSafety.CopyEffect` | libdatastore/src/util.rs:35-42 | a copy stopped at any point leaves the target absent or whole |
| `StoreSafety.JsonEffect` | libdatastore/src/util.rs:44-57 | a record write stopped at any point leaves the old record or the new one |
| `StoreGc.CollectionSettles` | libdatastore/src/resources.rs:179-193 | after the size phase the total fits the limit or no readable record is left; nothing is removed when it already fits |
| `StoreGc.CollectionRemovesRecords` | libdatastore/src/resources.rs:179-193 | only recorded objects are removed, each once and wholly, and everything else stays |
| `StoreGc.OldestFirst` | libdatastore/src/resources.rs:179-193 | no removed object is younger than a later removed one or a survivor |
| `StoreGc.NothingInVain` | libdatastore/src/resources.rs:179-193 | before each removal the store was over its limit |
| `StoreGc.OrphansStay` | libdatastore/src/resources.rs:243-269 | data without a readable record is never collected |
| `StoreGc.WithinLimitIff` | libdatastore/src/resources.rs:179-193 | the collection ends within the limit if and only if such data alone fits it |
| `StoreGc.EndsIff` | libdatastore/src/resources.rs:179-193 | the size phase ends if and only if, after every record has had its turn oldest first up to one that names nothing there, no record is left or what is left fits the limit; for any records and any listing order |
| `StoreGc.StuckForever` | libdatastore/src/resources.rs:179-193 | a turn that deletes nothing is followed by the same turn for ever |
| `StoreGc.LoneMisnamedHangs` | libdatastore/src/resources.rs:179-193 | over the limit with one record, which names an object that is not there, the size phase never ends |
| `StoreGc.NamedFloor` | libdatastore/src/resources.rs:179-193 | when records name their own files every record leaves, so the size phase ends whatever the limit |
| `StoreGc.VictimsCollect` | libdatastore/src/resources.rs:179-193 | with such records a size phase that has ended is a collection in the sense of the lemmas above |
| `StoreGc.ExpiryExact` | libdatastore/src/resources.rs:229-241 | with such records the expiry removes exactly the expired objects, in whatever order it meets them |
| `StoreLife.ExpiryInFields` | libdatastore/src/resources.rs:229-241 | with such records, field by field: a record goes with its data if and only if its expiry time is there and at most the clock reading; everything else is untouched |
| `StoreLife.AddRecord` | libdatastore/src/resources.rs:140-153 | an add that succeeds leaves a record with the digest, the length, the clock reading, and the reading plus the expiration saturated at 2^64 - 1 |
| `StoreLife.ObjectLifetime` | libdatastore/src/resources.rs:140-241 | over every run, stopped anywhere: an object added at now under expiration e is there after a finished collection at t if and only if t < now + e, saturated; always where there is no expiration; provided that nothing in between deletes or re-adds it or lowers the limit |
| `StoreLife.EarlierGoesFirst` | libdatastore/src/resources.rs:179-193 | over every run: of two objects the size phase takes the one added at the smaller clock reading first |
| `StoreGc.PutTotal` | libdatastore/src/resources.rs:111-138 | the storing part of an add: new content adds its length to the total, and what is there does not change it |
| `StoreRuns.RefusedIff` | libdatastore/src/resources.rs:111-122 | where the total is within the limit: an add is refused for room if and only if its length does not fit on top of the total, nor on top of what an expiry leaves, stored already or not; a refusal leaves the expiry done; a success on stored content leaves the total as it was after that |
| `StoreLife.AddAnswers` | libdatastore/src/resources.rs:95-156 | within the limit, every answer of an add in bytes: too big, full, corrupt, or stored with this record; and the files after each |
| `StoreRuns.StoredContentRefused` | libdatastore/src/resources.rs:111-122 | a content that fits its limit but not twice is stored and then refused |
| `StoreRuns.AlwaysWithinLimit` | libdatastore/src/resources.rs:111-122 | while nothing is added under a higher limit, the total is within it in every run, at any stop, under whatever other configuration |
| `StoreRuns.CollectionsOnlyExpire` | libdatastore/src/resources.rs:175-196 | so until the limit is lowered every collection removes exactly the expired objects, and none for being the oldest |
| `StoreRuns.AlwaysNamed` | libdatastore/src/resources.rs:143-153 | in every state reached, under configurations that may change at any step, each readable record names the file it stands in |
| `StoreRuns.NamedCollection` | libdatastore/src/resources.rs:175-196 | with records that name their own files, a collection that returns is an exact expiry followed by a collection of the size phase |
| `StoreRuns.StoppedAddOutlivesCollection` | libdatastore/src/resources.rs:124-153 | a run: an add that is stopped once its data is in place, then any collection under a smaller limit, which removes nothing and returns above it |
| `Store.DataStorage.Issue` | libdatastore/src/resources.rs:16-20 | performs one step on the files and records it; every operation below is built from it |
| `Store.DataStorage.TotalSize` | libdatastore/src/resources.rs:271-280 | the loop adds up the data files in saturating arithmetic, whatever order they come in |
| `Store.DataStorage.OldestRecord` | libdatastore/src/resources.rs:243-269 | the loop finds the first record of the smallest creation time in listing order, and none only if there is none |
| `StoreGc.OldestFound` | libdatastore/src/resources.rs:243-269 | what that search settles on has the smallest creation time of all, and it settles on nothing exactly when no record is readable |
| `StoreGc.OldestIsFirst` | libdatastore/src/resources.rs:254-264 | of several records of the smallest time it is the one that the listing has first |
| `Store.DataStorage.Delete` | libdatastore/src/resources.rs:199-216 | issues the removal of the record, then of the data, present or not |
| `Store.DataStorage.RemoveExpired` | libdatastore/src/resources.rs:229-241 | for any records, issues the deletions of what the expired records name, in listing order, skipping records deleted on the way; with named records exactly those with an expiry time at most the reading are gone |
| `Store.DataStorage.Shrink` | libdatastore/src/resources.rs:179-193 | for any records, however long it is watched, has issued the deletions of that many turns; it has returned exactly when the total fits or no record is readable |
| `Store.DataStorage.Gc` | libdatastore/src/resources.rs:175-196 | expiry, then the size phase if a limit is set; within the limit, with named records, exactly the records with an expiry time at most the reading are gone |
| `Store.DataStorage.Add` | libdatastore/src/resources.rs:95-156 | issues exactly the steps of an add, and gives every outcome: too big, still collecting, full after collecting, corrupt, or stored within the limit, with the times of its record in clock readings |
| `Store.DataStorage.MakeRoom` | libdatastore/src/resources.rs:111-122 | issues the deletions of a collection if there is no room; says whether there is room then, or that the collection goes on |
| `Store.DataStorage.Put` | libdatastore/src/resources.rs:124-155 | issues the steps of an add: data if it is not there, the record last; refuses corrupt data before it writes; the record has the reading as creation time and the reading plus the expiration, saturated, as expiry time |
| `Store.DataStorage.CopyFile` | libdatastore/src/util.rs:37-42 | issues the growing contents of the temporary file, then its renaming |
| `Store.DataStorage.JsonWrite` | libdatastore/src/util.rs:47-57 | issues the temporary record, empty and then whole, then its renaming |
| `Scopes.ScopeRoots` | libsensors/src/lib.rs:68-79 | the loop over the sorted indexes finds, in path order, exactly the index directories without an index directory properly above |
| `Scopes.CollectChunks` | libsensors/src/lib.rs:54-110 | the chunk list is the scopes of these roots one after the other; the duplicate check never fires; every chunk is called something and ".cfg", and every such file below an index other than an index is a chunk |
| `Scopes.ChunksExact` | libsensors/src/lib.rs:46-53 | an index is loaded exactly when no index lies above its directory; any other configuration file exactly when some index lies above it |
| `Scopes.ChunksByName` | libsensors/src/lib.rs:35-53 | the same by name, in bytes: the chunks are the roots' own "sensors.cfg" and, below a root, every file called a non-empty stem and ".cfg" but not "sensors.cfg" |
| `Scopes.RootsByName` | libsensors/src/lib.rs:60-79 | a root is a directory with a "sensors.cfg" under no other such directory |
| `Scopes.PathLtIff` | libsensors/src/lib.rs:41-44 | path order in full: what is above comes first, else the first different component decides |
| `Scopes.ChunksOrdered` | libsensors/src/lib.rs:46-53 | no duplicates; each chunk has one scope; scopes in path order, each index before the rest of its scope |
| `Scopes.WalkOrderIrrelevant` | libsensors/src/lib.rs:46-53 | the chunk list does not depend on the order in which the directory walk meets the files |
| `SensorLoad.Merge` | libsensors/src/lib.rs:132-140 | adding a chunk's entries keeps of every key the first entry, in order of first definition |
| `SensorLoad.MergeEvents` | libsensors/src/lib.rs:142-155 | the same for events; anything but a mapping adds nothing |
| `SensorLoad.FirstWinsKeeps` | libsensors/src/lib.rs:132-155 | keeping first entries leaves distinct keys and the same first value of every key |
| `SensorLoad.SortSensors` | libsensors/src/lib.rs:194-201 | the same sensors, in strictly ascending order of their names |
| `SensorLoad.FillIntervals` | libsensors/src/sspec.rs:148-164 | the loop fills in exactly the missing intervals and changes nothing else |
| `SensorLoad.LoadChunks` | libsensors/src/lib.rs:157-201 | an unreadable chunk fails the load; otherwise interval, every sensor and every event have the value of the earliest chunk that defines them |
| `SensorLoad.Load` | libsensors/src/lib.rs:157-212 | for the chunks of a directory: the merged specification, rejected if its events do not parse, with an interval picked for exactly the sensors that have none |
| `SensorLoad.LoadDetermined` | libsensors/src/lib.rs:157-201 | the properties required of a merge determine it completely, order of sensors and events included |
| `SensorLoad.LoadInFields` | libsensors/src/lib.rs:157-201 | entry by entry: a sensor or event is taken if and only if it is the first of its name in the chunks, the interval is the first there is, and there are events if and only if some chunk has a mapping with entries |
| `Sessions.EventsRegistry.OpenSession` | libeventreg/src/kvdb.rs:310-325 | returns the existing session unchanged or files a new one |
| `Sessions.EventsRegistry.GetSessions` | libeventreg/src/kvdb.rs:353-374 | ends despite the mutual recursion; trims once when rotation is on and no trim is under way; returns the sorted listing |
| `Sessions.EventsRegistry.TrimData` | libeventreg/src/kvdb.rs:417-442 | ends despite the mutual recursion; removes the oldest beyond the limit and the too old, after the trim its own listing makes; says one by one which sessions are left |
| `Sessions.EventsRegistry.DeleteBeyondLimit` | libeventreg/src/kvdb.rs:423-429 | removes exactly the first sessions of the listing beyond the limit |
| `Sessions.EventsRegistry.DeleteTooOld` | libeventreg/src/kvdb.rs:431-439 | removes exactly the listed sessions before the cut; none where no cut can be computed |
| `Sessions.TrimLeavesNewest` | libeventreg/src/kvdb.rs:416-442 | the listing after a trim is that of the newest sessions without the too old, order kept |
| `Sessions.TrimKeepsIff` | libeventreg/src/kvdb.rs:416-442 | one by one: the i-th session of the listing is kept if and only if no more than the limit come from there on and its time is not before the cut |
| `Sessions.TrimLeavesLimit` | libeventreg/src/kvdb.rs:423-429 | where none is too old exactly the limit remains, or all if there are fewer |
| `Sessions.ListingOrder` | libeventreg/src/kvdb.rs:353-374 | the listing in full: by whole seconds, 10^9 nanoseconds each, and within a second by session id |
| `Sessions.TrimmedListing` | libeventreg/src/kvdb.rs:353-442 | it is ascending, within the limit, without too old sessions; what the limit cost is no newer than what is left; a second trim removes nothing |
| `Replay.KeyText` | libsysproto/src/replay.rs:39-48 | the four kinds of keys letter by letter |
| `Replay.PlainKeyUnique` | libsysproto/src/replay.rs:39-48 | an identity without pipes shares its key with no other identity of any kind |
| `Replay.SameKeySameKind` | libsysproto/src/replay.rs:39-48 | keys of different kinds never meet, whatever the fields hold |
| `Replay.KeyUniqueIffPlain` | libsysproto/src/replay.rs:39-48 | a key stands for one identity if and only if no field of it holds a pipe |
| `Replay.EventsRegistry.ClaimReplayKey` | libeventreg/src/kvdb.rs:299-307 | true for a key not recorded, which it then records |
| `Replay.EventsRegistry.PurgeAllData` | libeventreg/src/kvdb.rs:444-464 | no key stays recorded |
| `Replay.RecordedKeys` | libeventreg/src/kvdb.rs:299-307 | after any claims since a purge the recorded keys are those of the claimed identities |
| `Replay.AtMostOnce` | libeventreg/src/kvdb.rs:299-307 | the accepted identities are pairwise distinct and exactly the claimed ones |
| `EidHub.EidHub.Register` | libcommon/src/eidhub.rs:32-59 | refuses masked and active ids, otherwise starts a lease |
| `EidHub.EidHub.Release` | libcommon/src/eidhub.rs:61-70 | removes an unmasked id |
| `EidHub.EidHub.Touch` | libcommon/src/eidhub.rs:72-88 | renews an active lease, removes an expired one |
| `EidHub.StoreIsHistory` | libcommon/src/eidhub.rs:32-88 | an id is active exactly while the lease read off the history runs; ids with a '$' or '*' are never stored |
| `EidHub.AnswersFollowHistory` | libcommon/src/eidhub.rs:32-88 | a registration is granted exactly when the id has neither '$' nor '*' and is not leased; a lookup succeeds exactly while it is leased |
| `EidHub.GrantsAreApart` | libcommon/src/eidhub.rs:32-88 | a grant comes at least a whole lease after every earlier grant or renewal with no drop between |
| `Shell.LexQuoted` | src/sshprobe/transport.rs:284-286 | a quoted value adds exactly that value to the word under construction, whatever follows |
| `Shell.ShellLineReadsBack` | src/sshprobe/transport.rs:114-120 | the remote shell reads the fixed words of the elevation mode and one last word that is the command |
| `Shell.UploadScriptReadsBack` | src/sshprobe/transport.rs:211 | the upload script reads as its two commands with both paths unchanged |
| `Shell.NestedQuotingReadsBack` | src/sshprobe/transport.rs:208-214 | two levels of quoting: the outer shell passes the script whole, the inner one reads both paths unchanged |
| `Shell.ShellLineInjective` | src/sshprobe/transport.rs:114-120 | different commands or modes never share a command line |

## Left out

- QueueRunner.RunnerWork: ids stay below the end of the number space while the loop is followed; what happens there is in `QueueSafety.SaturatedIdIsReused`.
- QueueRunner.RunnerPayloads: the same; from a marker that is corrupt or without payload the loop goes no further, as `Queue.DiskPersistentQueue.RunInner` says for any disk.
- QueueRunner.ReachableIsWorkable: clients settle each delivery at most once, as `Enabled` says; runs of clients that do not are the subject of `QueueMisuse`.
- SensorLoad.Load: parsing of the merged events and the random choice of an interval are parameters.
- Errors of the tree store, of the file system and of JSON or YAML serialisation, and the early returns they cause.
- Flushing, wake-ups, the polling interval and concurrent callers of the journal, the queue and the store.
- The single backlog policy of the journal and the test for a completion mark.
- Queue statistics, and jobs whose payload does not parse.
- File name and mode in store records, sharding of paths, and the walk over the store's directories.
- The hash function itself, and reading the source file twice.
- Events, minions and the trees of a session, which a trim leaves behind; sessions that do not parse.
- Extraction of replay identities from messages.
- The process-wide hub instance and the reading of the clock before the lock is taken.
- SSH and SCP argument lists and process handling, and the computation of a remote path's parent.
- Shell behaviour beyond quoting and splitting into words and operators: expansions do not arise in single quotes, aliases and reserved words are not modelled.
- Symbolic links, and file names that are not UTF-8, in the sensor directories.
- Terminal interface, command line, network transport, formatting helpers and plain accessors.
