# CID lookup index of msquic, modelled in Dafny

This project models the connection-ID lookup index of msquic
(`core/lookup.c`). The index maps the destination CID bytes of an incoming
packet to the connection that registered them. It has two shapes:

- **Unpartitioned mode** (`PartitionCount == 0`): the table holds one
  connection directly, and a lookup walks that connection's own list of
  source CIDs.
- **Partitioned mode** (`PartitionCount > 0`): the table holds an array of
  partitions. A CID selects the partition
  `(CID[QUIC_CID_PID_INDEX] & PartitionMask) % PartitionCount`, and a
  lookup takes the first entry of that partition with the same hash, length
  and bytes.

`QuicLookupRebalance` grows the table from 0 to 1 partition when a second
connection arrives, and to the global partition count once partitioning is
maximised. Growth migrates every registered entry into the new array.
Registration, lookup, removal of one or all of a connection's CIDs, and
moving a connection's CIDs from one table to another sit on top of this.

Structure:

- `cid.dfy`, module `CidEntries`:
  - the CID entry (`Entry`);
  - the facets of a connection the index uses (`Connection`): its ordered
    list of source CIDs and its two reference counts, one for the
    `LOOKUP_TABLE` reason and one for `LOOKUP_RESULT`;
  - the multiset view of an array of partitions (`Bag`) and its lemmas;
  - `Keyed` and `Agrees`, which say that equal CID bytes never lead to two
    different connections.
- `lookup.dfy`, module `CidLookup`:
  - class `Lookup`, a `QUIC_LOOKUP` with fields `partitionCount`,
    `maximize`, `cidCount`, `single` and `tables`. The methods update these
    fields in place.
  - The process-wide settings (`MsQuicLib.PartitionCount`,
    `MsQuicLib.PartitionMask`, `QUIC_CID_PID_INDEX`) are constants of the
    object. So is the CID hash function `QuicHashSimple`, kept
    uninterpreted.
  - `Entries()` is the abstract content: the multiset of entries a lookup can
    reach. In unpartitioned mode it is the single connection's list; in
    partitioned mode it is every partition's entries.
  - `Valid()` is the invariant every public operation keeps: the mode
    shape, each entry in the partition its CID selects, and the maximise
    flag in full effect.
  - `Counted()` says `cidCount` equals the number of reachable entries in
    partitioned mode.
  - The ghost map `owner` records which connection each CID's bytes were
    linked for. It is the proof device behind "equal bytes, same
    connection" (`EntriesUnambiguous`).
- The outcome of the allocations a growth makes is an input
  (`AllocOutcome`), so that both the success and the failure paths are
  proved.

Wherever the code could be read more loosely, the model follows the code
as written:

- `QuicLookupAddSourceConnectionID` treats ANY existing entry with the same
  bytes as a collision, even one owned by the connection that is adding
  (core/lookup.c:547-566). It is not limited to a CID held by a different
  connection.
- `QuicLookupMoveSourceConnectionIDs` runs two separate loops
  (core/lookup.c:620-652): first every CID is removed from the source table,
  then every CID is inserted into the destination. It does not remove and
  insert one CID at a time. Each LOOKUP_TABLE reference is released inside
  the first loop, while the source table's lock is held (631). The model
  keeps the two loops and their order; the lock itself is erased.
- The two defects listed under "## Findings" are modelled both as written
  and corrected.

## Model

| member | source | states |
|---|---|---|
| CidEntries.CidMatchConnection | core/lookup.c:255-276 | Finds a match exactly when some entry on the connection's own list has the same CID bytes. A zero-length CID matches only a zero-length entry. |
| CidEntries.RemoveOne | core/lookup.c:455-467 | Unlinking from a partition removes exactly one occurrence of the entry when it is present, and leaves the partition as it was otherwise. |
| CidEntries.BagMember | core/lookup.c:343-366 | An entry is in the table exactly when one partition holds it. |
| CidEntries.BagAppend | core/lookup.c:394-413 | Linking an entry into one partition adds exactly that entry to the table's contents. |
| CidEntries.BagRemove | core/lookup.c:455-467 | Unlinking a held entry from its partition takes exactly that entry out of the table's contents. |
| CidEntries.BagShrink | core/lookup.c:455-467 | Replacing a partition by a sub-multiset of it removes exactly the difference from the table's contents. |
| CidEntries.BagOfEmpties | core/lookup.c:85-97 | A freshly created partition array, every partition empty, holds nothing. |
| CidEntries.BagConcat | core/lookup.c:185-218 | The contents of two runs of partitions are the sum of their contents. This is what lets the drain go partition by partition. |
| CidEntries.KeyedUnambiguous | core/lookup.c:547-566 | A table in which every entry is filed under its bytes with its own connection never maps equal bytes to two connections. |
| CidEntries.KeyedClaims | core/lookup.c:166-183 | After the single connection's list is migrated, every migrated entry is filed under its bytes with that connection. |
| CidEntries.AgreesOwn | core/lookup.c:635-652 | A connection's own list never conflicts with itself, so reinserting it into an unpartitioned table is collision-free. |
| CidLookup.FirstInitFailure | core/lookup.c:85-91 | The initialisation loop stops at the first partition whose hash table fails, or at the count when none fails. Every partition before that point initialised. |
| CidLookup.CreateHashTableAsWritten | core/lookup.c:80-103 | Creation as written never succeeds without the array, and every allocation that fully succeeds is reported as success. The failing index is kept in `Cleanup`, and only a nonzero `Cleanup` counts as failure. |
| CidLookup.CreateHashTableAsWrittenAcceptsPartitionZeroFailure | core/lookup.c:80-103 | As written, creation reports success exactly when every partition initialised, or when the array was allocated and partition 0 failed. |
| CidLookup.PartitionZeroFailureIsReportedAsSuccess | core/lookup.c:84-100 | With two partitions where partition 0 fails, the code as written reports success although the allocation did not succeed. |
| CidLookup.ReleaseCountAsWritten | core/lookup.c:593-610 | The uint8_t release counter after `popped` pops holds `popped % 256`. |
| CidLookup.ReleaseCountWrapsAt256 | core/lookup.c:593-610 | After 256 popped CIDs the counter is 0, so no LOOKUP_TABLE reference is released. |
| CidLookup.Lookup.PartitionIndex | core/lookup.c:343-345 | The partition a CID selects, computed as in find, insert (401-403) and remove (461-463), is always below the partition count. |
| CidLookup.Lookup.Target | core/lookup.c:122-136 | The rebalance target is the global count when maximised. Otherwise it is at most 1, and 0 exactly when the table is unpartitioned and holds no connection or only the triggering one. |
| CidLookup.Lookup.constructor | core/lookup.c:35-42 | A new table is empty, unpartitioned, not maximised, and satisfies the invariant. |
| CidLookup.Lookup.Uninitialize | core/lookup.c:45-66 | Only a table with no registered CID may be destroyed. Every partition is then empty and nothing was reachable. |
| CidLookup.Lookup.InItsPartition | core/lookup.c:343-346 | Every reachable entry sits in the partition its CID selects, which is where find looks. |
| CidLookup.Lookup.EntriesUnambiguous | core/lookup.c:547-566 | In either mode, equal CID bytes among reachable entries always belong to the same connection. |
| CidLookup.Lookup.Claimed | core/lookup.c:491-493 | The owner of a reachable entry is the connection a lookup of its bytes can return. That is the only connection whose LOOKUP_RESULT count may change. |
| CidLookup.Lookup.NestedRebalanceIsNoOp | core/lookup.c:176-180 | Inside a migration the table already has its target count, so the rebalance each nested insert starts (also 210-214) leaves the table alone, whatever connection it is for. Both growth methods call it before migrating. |
| CidLookup.Lookup.HashLookupConnection | core/lookup.c:284-309 | Returns null exactly when no bucket entry has the same hash and bytes. Otherwise it returns the connection of the first such entry. |
| CidLookup.Lookup.FindConnectionInternal | core/lookup.c:313-367 | Succeeds exactly when a reachable entry has these CID bytes, in either mode, and returns that entry's connection. |
| CidLookup.Lookup.FindConnection | core/lookup.c:472-498 | Gives the same answer as the internal find. A hit adds exactly one LOOKUP_RESULT reference to the connection found and to no other. |
| CidLookup.Lookup.FindConnectionByRemoteAddr | core/lookup.c:501-531 | Returns the single connection in unpartitioned mode and null in partitioned mode. A hit adds one LOOKUP_RESULT reference; a miss leaves the single connection's LOOKUP_RESULT count unchanged. |
| CidLookup.Lookup.CreateHashTable | core/lookup.c:72-104 | Succeeds exactly when the array and every partition can be set up. Then the count is the requested one and every partition is empty. On failure no array is left and the count is unchanged. |
| CidLookup.Lookup.Place | core/lookup.c:394-413 | Links an entry into the partition its CID selects, adding exactly that entry and keeping every entry in its partition. |
| CidLookup.Lookup.PlaceAll | core/lookup.c:166-183 | Migrating the single connection's list adds exactly the list's entries and keeps every entry in its partition. |
| CidLookup.Lookup.DrainPartitions | core/lookup.c:185-218 | Draining the old partitions into the new array adds exactly the old contents and keeps every entry in its partition. |
| CidLookup.Lookup.Rebalance | core/lookup.c:112-223 | Succeeds exactly when the target does not exceed the count or the allocation succeeds. On success the count is the larger of the old count and the target, so it never decreases. On failure, or with nothing to grow, the table is unchanged. Reachable entries and the registered count are always preserved. |
| CidLookup.Lookup.GrowFromSingle | core/lookup.c:138-183 | Growth out of unpartitioned mode keeps every reachable entry and the count. The mode changes exactly when the allocation succeeds; on failure the single connection is restored. |
| CidLookup.Lookup.GrowPartitions | core/lookup.c:138-218 | Growth of a partitioned table keeps every reachable entry and the count, and reaches the target exactly when the allocation succeeds. On failure the old array is kept. |
| CidLookup.Lookup.MaximizePartitioning | core/lookup.c:226-246 | The flag is set once. A successful grow leaves the table maximised at the global count. A failed grow rolls the flag back and leaves the table unchanged. |
| CidLookup.Lookup.InsertSourceConnectionID | core/lookup.c:374-425 | Succeeds exactly when the rebalance does, and leaves the partition count at the larger of the old count and the target. On success the count rises by 1 and the owner gains one LOOKUP_TABLE reference. In partitioned mode exactly the entry is added to what lookups reach. In unpartitioned mode the table holds the entry's connection, and lookups reach that connection's own list. On failure nothing changes. |
| CidLookup.Lookup.Link | core/lookup.c:385-415 | The insertion proper: unpartitioned mode holds the connection, partitioned mode adds exactly the entry. Either way the count rises by 1 and the invariant holds. |
| CidLookup.Lookup.AddSourceConnectionID | core/lookup.c:534-571 | An already registered CID fails the call, changes nothing in the table, and returns the existing owner with one more LOOKUP_RESULT reference when asked. Otherwise the call behaves as insert, including the new partition count. The maximise flag never changes. |
| CidLookup.Lookup.ReportCollision | core/lookup.c:553-560 | Returns the existing owner when asked, else null. Exactly the returned connection gains one LOOKUP_RESULT reference. |
| CidLookup.Lookup.Unclaimed | core/lookup.c:554-558 | A CID no reachable entry carries cannot collide with any entry. |
| CidLookup.Lookup.RemoveSourceConnectionIDInt | core/lookup.c:432-469 | Requires a nonzero count and decrements it. Unpartitioned mode clears the connection exactly when the count reaches 0. Partitioned mode takes exactly the entry out. |
| CidLookup.Lookup.Forget | core/lookup.c:443-453 | The count drops by 1, and the single connection is cleared exactly when it reaches 0. |
| CidLookup.Lookup.Unplace | core/lookup.c:455-467 | Unlinks the entry from the partition its CID selects, which is where insert put it. The count drops by 1 and exactly that entry becomes unreachable. |
| CidLookup.Lookup.UnplaceKeeps | core/lookup.c:455-467 | Unlinking from the selected partition keeps every other entry in its partition and filed under its owner, and removes exactly one entry. |
| CidLookup.Lookup.RemoveSourceConnectionID | core/lookup.c:574-584 | The removal, plus exactly one LOOKUP_TABLE reference released. |
| CidLookup.Lookup.RemoveSourceConnectionIDs | core/lookup.c:587-611 | Empties the connection's list and lowers the count by the list's length. Partitioned mode takes exactly the list's entries out. Unpartitioned mode keeps the single connection while the count stays nonzero and clears it when the count reaches 0. One LOOKUP_TABLE reference is released per popped entry. |
| CidLookup.Lookup.StartDraining | core/lookup.c:593-596 | Before the first pop, the reachable entries are the other connections' entries plus the list. |
| CidLookup.Lookup.PopSourceConnectionID | core/lookup.c:595-604 | Popping and unlinking the head keeps the drain state, with one more entry released. |
| CidLookup.Lookup.FinishDraining | core/lookup.c:596-605 | Once the list is empty, exactly as many entries were released as it held, and only the other connections' entries remain reachable. |
| CidLookup.Lookup.ReleaseTableRefs | core/lookup.c:608-610 | Releases exactly `count` LOOKUP_TABLE references. |
| CidLookup.Lookup.MoveOutOne | core/lookup.c:624-631 | Unlinking the k-th CID and releasing its reference keeps the state of the first move loop, one step on. |
| CidLookup.Lookup.MoveOut | core/lookup.c:620-633 | Every CID on the list (left as it is) is unlinked from the source table. The count drops by the list's length, one LOOKUP_TABLE reference is released per CID, and partitioned mode takes exactly the list's entries out. Unpartitioned mode keeps the single connection while the count stays nonzero and clears it when the count reaches 0. |
| CidLookup.Lookup.StartMoveIn | core/lookup.c:635-636 | The second move loop starts with nothing inserted. |
| CidLookup.Lookup.ReadyToMoveIn | core/lookup.c:638-649 | Before each insert of the second loop, the CID may be inserted and conflicts with no reachable entry. |
| CidLookup.Lookup.MovedIn | core/lookup.c:638-651 | After each insert of the second loop, the state of the loop holds one step on. |
| CidLookup.Lookup.MoveInOne | core/lookup.c:638-651 | Inserting the k-th CID, which the source asserts succeeds, keeps the state of the second loop one step on. The partition count becomes the larger of its old value and what the table needed for this connection; after the first insert it no longer changes. |
| CidLookup.Lookup.MoveIn | core/lookup.c:635-652 | Every CID on the list is inserted into the destination. The count rises by the list's length, and one LOOKUP_TABLE reference is taken per CID. The maximise flag is kept. For a nonempty list the partition count becomes the larger of its old value and the partitions the table needed for this connection, so an unpartitioned table holding another connection becomes partitioned. For an empty list the mode, the single connection and the reachable entries are unchanged. In partitioned mode exactly the list is added to what lookups reach; in unpartitioned mode the table holds the connection. |
| CidLookup.Lookup.FinishMoveIn | core/lookup.c:635-652 | When the second loop ends, every CID of the list has been inserted and referenced. |
| CidLookup.MoveOutOf | core/lookup.c:620-633 | The first loop seen from both tables: the source table behaves as MoveOut and keeps its partition count and maximise flag, and the destination keeps its invariant, its reachable entries and its acceptance of the connection. |
| CidLookup.MoveInto | core/lookup.c:635-652 | The second loop seen from both tables: the destination behaves as MoveIn, including its partition count after a nonempty list and its unchanged state after an empty one, and the source keeps its invariant and its reachable entries. |
| CidLookup.MoveSourceConnectionIDs | core/lookup.c:614-653 | Both tables keep their invariant. The source keeps its partition count and maximise flag, and its count drops by the list's length. A partitioned source loses exactly the list's entries; an unpartitioned source keeps the single connection while its count stays nonzero and clears it at 0. The destination's count rises by the list's length. For a nonempty list its partition count becomes the larger of its old value and what it needed for the connection, so a destination that held another connection becomes partitioned; for an empty list its mode, single connection and reachable entries are unchanged. A partitioned destination gains exactly the list's entries, keeping every entry it had; an unpartitioned one ends up holding the connection. The connection's LOOKUP_TABLE count ends where it began. |

## Left out

- The top-level and per-partition reader/writer locks are erased. Each public operation is one atomic method, since every mutation runs under the exclusive top-level lock.
- The generic `QUIC_HASHTABLE`, its enumerator and `QuicHashSimple` are not part of this model. A partition is a sequence of entries in insertion order, the hash is an uninterpreted function of the CID bytes, and a bucket is the entries of a partition with equal hash. The enumeration order of a drain is this sequence order.
- Memory allocation and freeing (`QUIC_ALLOC_NONPAGED`, `QUIC_FREE`, including the entries freed by remove-all) are not modelled. An allocation outcome is an input, and freed entries simply become unreachable.
- `QuicConnAddRef` and `QuicConnRelease` are kept only as the two per-connection counters; connection destruction is not modelled.
- Debug logging, tracepoints and the IRQL/SAL annotations are left out, as is `src/generated/linux/connection.h.clog.h.lttng.h` (tracepoint declarations only).
- The remote address passed to find-by-remote-address is never inspected by the source, so it is not a parameter.
- `cidCount`: the source's uint32_t is modelled as an unbounded count, so wrap-around past 2^32 - 1 registrations is not captured.
- CidLookup.MoveSourceConnectionIDs: each destination insert is modelled with a successful allocation. The source only asserts in debug builds that the insert succeeds. The model also assumes, as preconditions, that `src != dst` and that the destination accepts the connection's CIDs without a conflict. The callers that would establish this are not part of this model.
- The source's debug assertions become preconditions: a nonzero count and, in unpartitioned mode, the owner being the single connection, on remove; CIDs long enough to carry the partition-ID byte on partitioned insert and remove.
- Two further preconditions are not debug assertions but stand for the unstated contract of `QuicHashtableRemove` (core/lookup.c:466), which may only be given an entry that is in the table: on a partitioned single remove, the entry is among the reachable entries; on remove-all and on the move, the connection's whole list is contained in the reachable entries.
- The partition limit (the type `CidLookup.PartitionLimit`) assumes the library's partition count is at least 1. The source's `uint8_t` at core/lookup.c:122-124 would allow 0, and then a maximised table would never leave unpartitioned mode.
- CidLookup.Lookup.FindConnectionInternal: partitioned find asserts `CIDLen >= QUIC_MIN_INITIAL_CONNECTION_ID_LENGTH` (core/lookup.c:334). The model weakens this to the CID being long enough to carry the partition-ID byte, because the value of that constant is not part of this model.
- The `owner` map and `Claimant` are a proof device for "equal bytes, same connection". They have no counterpart field in the source.
- CidLookup.Lookup.RemoveSourceConnectionIDs: releases an unbounded number of references. The source's uint8_t counter is modelled separately by ReleaseCountAsWritten (see Findings).

## Findings

| source | as written | input that shows it | evidently intended | confidence | as-written member | corrected member |
|---|---|---|---|---|---|---|
| core/lookup.c:80-103 | `Cleanup` holds the index of the first partition whose hash table fails, and only `Cleanup != 0` is treated as failure. | Two partitions, array allocated, partition 0 fails to initialise: the loop breaks at once, so no partition gets a hash table or a lock, yet creation reports success, keeps the array and sets the partition count. | Any partition failure, including partition 0, fails the creation and frees the array. | not executed | CidLookup.PartitionZeroFailureIsReportedAsSuccess | CidLookup.Lookup.CreateHashTable |
| core/lookup.c:593-610 | `ReleaseRefCount` is a uint8_t incremented once per popped CID. | A connection with 256 registered CIDs: all 256 are popped and unlinked, yet the counter is 0 and no LOOKUP_TABLE reference is released. | One reference is released per popped CID, however many there are. | not executed | CidLookup.ReleaseCountWrapsAt256 | CidLookup.Lookup.RemoveSourceConnectionIDs |
