/** The CID lookup index of core/lookup.c: a table that holds either one
    connection directly (unpartitioned mode, partition count 0) or an array
    of partitions, each a hash table of CID entries (partitioned mode). Every
    public operation runs under the table's exclusive or shared lock in the
    source; here each is one atomic method. */
module CidLookup {
  import opened CidEntries

  /** The outcome of the allocations one growth of the partition array makes:
      whether the array itself is allocated, and whether the hash table of
      partition i initialises. */
  datatype AllocOutcome = AllocOutcome(arrayOk: bool, initOk: nat -> bool)

  /** Growing to `count` partitions succeeds when the array and every one of
      its `count` hash tables can be set up. */
  predicate AllocSucceeds(alloc: AllocOutcome, count: nat)
  {
    alloc.arrayOk && forall i :: 0 <= i < count ==> alloc.initOk(i)
  }

  /** Where the initialisation loop of core/lookup.c:85-91, started at `from`,
      stops: the first partition whose hash table fails, or `count`. */
  function FirstInitFailure(initOk: nat -> bool, from: nat, count: nat): (k: nat)
    requires from <= count
    ensures from <= k <= count
    ensures forall i :: from <= i < k ==> initOk(i)
    ensures k < count ==> !initOk(k)
    decreases count - from
  {
    if from == count then count
    else if !initOk(from) then from
    else FirstInitFailure(initOk, from + 1, count)
  }

  /** The result of QuicLookupCreateHashTable exactly as written
      (core/lookup.c:80-103): the failing index is kept in `Cleanup`, and only
      `Cleanup != 0` is treated as a failure. */
  function CreateHashTableAsWritten(alloc: AllocOutcome, count: nat): (r: bool)
    ensures r ==> alloc.arrayOk
    ensures AllocSucceeds(alloc, count) ==> r
  {
    alloc.arrayOk &&
    (var k := FirstInitFailure(alloc.initOk, 0, count);
     var cleanup := if k < count then k else 0;
     cleanup == 0)
  }

  /** As written, the creation reports success exactly when every partition
      initialised OR the very first one failed: a failure at partition 0 is
      mistaken for success, leaving partition 0 without a hash table. */
  lemma CreateHashTableAsWrittenAcceptsPartitionZeroFailure(alloc: AllocOutcome, count: nat)
    ensures CreateHashTableAsWritten(alloc, count) <==>
            AllocSucceeds(alloc, count) || (alloc.arrayOk && 0 < count && !alloc.initOk(0))
  {
    var k := FirstInitFailure(alloc.initOk, 0, count);
    if alloc.arrayOk && k == count {
      assert AllocSucceeds(alloc, count);
    }
  }

  /** The concrete input: two partitions, the first of which fails. */
  lemma PartitionZeroFailureIsReportedAsSuccess()
    ensures var alloc := AllocOutcome(true, i => i != 0);
            CreateHashTableAsWritten(alloc, 2) && !AllocSucceeds(alloc, 2)
  {
    var alloc := AllocOutcome(true, i => i != 0);
    CreateHashTableAsWrittenAcceptsPartitionZeroFailure(alloc, 2);
    assert !alloc.initOk(0);
  }

  /** `ReleaseRefCount` of QuicLookupRemoveSourceConnectionIDs as written
      (core/lookup.c:593-610): a uint8_t incremented once per popped entry. */
  function ReleaseCountAsWritten(popped: nat): (r: nat)
    ensures r == popped % 256
  {
    if popped == 0 then 0 else (ReleaseCountAsWritten(popped - 1) + 1) % 256
  }

  /** A connection holding 256 registered CIDs would have all 256 popped and
      unlinked, yet no LOOKUP_TABLE reference released. */
  lemma ReleaseCountWrapsAt256()
    ensures ReleaseCountAsWritten(256) == 0
  {
  }

  /** The range of MsQuicLib.PartitionCount. */
  type PartitionLimit = n: nat | 1 <= n <= 255 witness 1

  function Max(a: nat, b: nat): nat
  {
    if a < b then b else a
  }

  /** A QUIC_LOOKUP. The process-wide configuration it reads and the CID hash
      function are fixed when it is created. */
  class Lookup {
    /** MsQuicLib.PartitionCount: the partition count used once partitioning is maximised. */
    const maxPartitions: PartitionLimit
    /** MsQuicLib.PartitionMask, applied to the partition-ID byte of a CID. */
    const partitionMask: bv8
    /** QUIC_CID_PID_INDEX: the position of the partition-ID byte in a CID. */
    const pidIndex: nat
    /** QuicHashSimple over the CID bytes. */
    const hashOf: seq<bv8> -> nat

    var partitionCount: nat
    var maximize: bool
    var cidCount: nat
    /** SINGLE.Connection, meaningful while `partitionCount == 0`. */
    var single: Connection?
    /** HASH.Tables, meaningful while `partitionCount > 0`: partition i holds
        the entries whose partition index is i, in insertion order. */
    var tables: seq<seq<Entry>>
    /** The connection each CID's bytes were last linked for. */
    ghost var owner: map<seq<bv8>, Connection>

    /** The connection held directly, as a frame. */
    function SingleSet(): set<Connection>
      reads this
    {
      if single == null then {} else {single}
    }

    /** A CID long enough to carry the partition-ID byte. */
    predicate Selectable(cid: seq<bv8>)
    {
      pidIndex < |cid|
    }

    /** Every entry of the list is selectable. */
    predicate AllSelectable(cids: seq<Entry>)
    {
      forall i :: 0 <= i < |cids| ==> Selectable(cids[i].cid)
    }

    /** The partition of a CID: `(CID[QUIC_CID_PID_INDEX] & PartitionMask) %
        PartitionCount`, computed the same way by find (core/lookup.c:343-345),
        insert (401-403) and remove (461-463). */
    function PartitionIndex(cid: seq<bv8>, count: nat): (i: nat)
      requires Selectable(cid) && 0 < count
      ensures i < count
    {
      (cid[pidIndex] & partitionMask) as nat % count
    }

    /** Every entry sits in the partition its CID selects. */
    ghost predicate Placed(ts: seq<seq<Entry>>)
    {
      forall i, e {:trigger e in ts[i]} :: 0 <= i < |ts| && e in ts[i] ==>
        Selectable(e.cid) && PartitionIndex(e.cid, |ts|) == i
    }

    /** A placed partition array holds only selectable CIDs. */
    lemma PlacedSelectable(ts: seq<seq<Entry>>)
      requires Placed(ts)
      ensures forall i :: 0 <= i < |ts| ==> AllSelectable(ts[i])
    {
      forall i, j | 0 <= i < |ts| && 0 <= j < |ts[i]|
        ensures Selectable(ts[i][j].cid)
      {
        assert ts[i][j] in ts[i];
      }
    }

    /** The entries a lookup can reach: the single connection's own list in
        unpartitioned mode, every partition's entries otherwise. */
    ghost function Entries(): multiset<Entry>
      reads this, SingleSet()`sourceCIDs
    {
      if partitionCount > 0 then Bag(tables)
      else if single == null then multiset{}
      else multiset(single.sourceCIDs)
    }

    /** Some reachable entry carries exactly these CID bytes. */
    ghost predicate Registered(cid: seq<bv8>)
      reads this, SingleSet()`sourceCIDs
    {
      exists e {:trigger Entries()[e]} :: e in Entries() && e.cid == cid
    }

    /** The connection a lookup of `cid` can return: the single connection in
        unpartitioned mode, the recorded owner of the bytes otherwise. */
    ghost function Claimant(cid: seq<bv8>): set<Connection>
      reads this
    {
      if partitionCount == 0 then SingleSet()
      else if cid in owner then {owner[cid]}
      else {}
    }

    /** Whoever owns a reachable entry is its CID's claimant. */
    lemma Claimed(cid: seq<bv8>, c: Connection)
      requires Valid() && Entry(cid, c) in Entries()
      ensures c in Claimant(cid)
    {
      if partitionCount == 0 {
        var i :| 0 <= i < |single.sourceCIDs| && single.sourceCIDs[i] == Entry(cid, c);
      }
    }

    /** The structural invariant of both modes. */
    ghost predicate Shape()
      reads this, SingleSet()`sourceCIDs
    {
      && partitionCount <= maxPartitions
      && (partitionCount == 0 ==>
            && tables == []
            && (single == null <==> cidCount == 0)
            && (single != null ==> single.OwnsCIDs()))
      && (partitionCount > 0 ==>
            single == null && |tables| == partitionCount && Placed(tables) &&
            Keyed(Bag(tables), owner))
    }

    /** Shape, and the maximise flag, once set, has taken full effect. */
    ghost predicate Valid()
      reads this, SingleSet()`sourceCIDs
    {
      Shape() && (maximize ==> partitionCount == maxPartitions)
    }

    /** In partitioned mode every counted registration is one reachable entry. */
    ghost predicate Counted()
      reads this, SingleSet()`sourceCIDs
    {
      partitionCount > 0 ==> cidCount == |Entries()|
    }

    /** The partition count QuicLookupRebalance aims for when `conn` is about
        to be inserted (core/lookup.c:122-136). */
    function Target(conn: Connection?): (t: nat)
      reads this
      ensures maximize ==> t == maxPartitions
      ensures !maximize ==> t <= 1
      ensures !maximize ==> (t == 0 <==> partitionCount == 0 && (single == null || single == conn))
    {
      if maximize then maxPartitions
      else if partitionCount > 0 then 1
      else if partitionCount == 0 && single != null && single != conn then 1
      else 0
    }

    /** Growth out of unpartitioned mode reinserts the single connection's
        CIDs, each of which must carry a partition-ID byte (core/lookup.c:395). */
    ghost predicate ReadyToGrow(conn: Connection?)
      reads this, SingleSet()`sourceCIDs
    {
      partitionCount == 0 && single != null && Target(conn) > 0 ==>
        AllSelectable(single.sourceCIDs)
    }

    /** What inserting `e` demands of the caller (core/lookup.c:334, 395). */
    ghost predicate CanInsert(e: Entry)
      reads this, SingleSet()`sourceCIDs
    {
      ReadyToGrow(e.conn) &&
      (partitionCount > 0 || Target(e.conn) > 0 ==> Selectable(e.cid))
    }

    /** No reachable entry with the same bytes belongs to another connection. */
    ghost predicate NoConflict(e: Entry)
      reads this, SingleSet()`sourceCIDs
    {
      forall d {:trigger Entries()[d]} :: d in Entries() && d.cid == e.cid ==> d.conn == e.conn
    }

    /** What moving all of `conn`'s CIDs into this table demands. */
    ghost predicate Accepts(conn: Connection)
      reads this, SingleSet()`sourceCIDs, conn`sourceCIDs
    {
      && ReadyToGrow(conn)
      && (partitionCount > 0 || Target(conn) > 0 ==>
            AllSelectable(conn.sourceCIDs))
      && Agrees(Entries(), conn.sourceCIDs, conn)
    }

    /** A step that changes neither the table nor the single connection's
        list changes neither its invariant, its reachable entries nor its count. */
    twostate lemma Untouched()
      requires unchanged(this)
      requires old(single) != null ==> unchanged(old(single)`sourceCIDs)
      ensures Valid() == old(Valid()) && Entries() == old(Entries()) && Counted() == old(Counted())
    {
    }

    /** Work elsewhere that leaves this table, the single connection's list
        and `conn`'s list alone keeps `conn` acceptable here. */
    twostate lemma StillAccepts(conn: Connection)
      requires unchanged(this) && unchanged(conn`sourceCIDs)
      requires old(single) != null ==> unchanged(old(single)`sourceCIDs)
      requires old(Valid() && Accepts(conn) && conn.OwnsCIDs())
      ensures Valid() && Accepts(conn) && conn.OwnsCIDs() && Entries() == old(Entries())
    {
    }

    /** QuicLookupInitialize (core/lookup.c:35-42): an empty, unpartitioned table. */
    constructor (maxPartitions: PartitionLimit, partitionMask: bv8, pidIndex: nat, hashOf: seq<bv8> -> nat)
      ensures Valid() && Entries() == multiset{}
      ensures partitionCount == 0 && cidCount == 0 && single == null && !maximize
      ensures this.maxPartitions == maxPartitions && this.partitionMask == partitionMask
      ensures this.pidIndex == pidIndex && this.hashOf == hashOf
    {
      this.maxPartitions := maxPartitions;
      this.partitionMask := partitionMask;
      this.pidIndex := pidIndex;
      this.hashOf := hashOf;
      owner := map[];
      partitionCount := 0;
      maximize := false;
      cidCount := 0;
      single := null;
      tables := [];
    }

    /** QuicLookupUninitialize (core/lookup.c:45-66): only an empty table may
        be destroyed; the asserted emptiness of every partition follows. */
    method Uninitialize()
      requires Valid() && Counted() && cidCount == 0
      modifies this
      ensures old(Entries()) == multiset{}
      ensures single == null && tables == []
    {
      if partitionCount == 0 {
        assert single == null;
      } else {
        var i := 0;
        while i < partitionCount
          invariant 0 <= i <= partitionCount
          invariant unchanged(this)
          invariant forall j :: 0 <= j < i ==> tables[j] == []
        {
          if tables[i] != [] {
            BagMember(tables, tables[i][0]);
            assert false;
          }
          i := i + 1;
        }
        tables := [];
      }
    }

    /** An entry that a lookup can reach sits in the partition its CID selects. */
    lemma InItsPartition(e: Entry)
      requires Shape() && partitionCount > 0 && e in Entries()
      ensures Selectable(e.cid) && e in tables[PartitionIndex(e.cid, partitionCount)]
    {
      BagMember(tables, e);
    }

    /** Equal CID bytes always lead to the same connection: the table maps
        CIDs to connections. */
    lemma EntriesUnambiguous()
      requires Shape()
      ensures Unambiguous(Entries())
    {
      if partitionCount > 0 {
        KeyedUnambiguous(Bag(tables), owner);
      } else if single != null {
        var m := multiset(single.sourceCIDs);
        forall a, b {:trigger m[a], m[b]} | a in m && b in m && a.cid == b.cid
          ensures a.conn == b.conn
        {
          assert a in single.sourceCIDs && b in single.sourceCIDs;
        }
      }
    }

    /** Taking entries out of one partition keeps every entry in its partition. */
    lemma PlacedShrink(ts: seq<seq<Entry>>, i: nat, s: seq<Entry>)
      requires Placed(ts) && i < |ts| && multiset(s) <= multiset(ts[i])
      ensures Placed(ts[i := s])
    {
      var updated := ts[i := s];
      forall j, d: Entry {:trigger d in updated[j]} | 0 <= j < |updated| && d in updated[j]
        ensures Selectable(d.cid) && PartitionIndex(d.cid, |updated|) == j
      {
        if j == i {
          assert d in multiset(s);
        }
        assert d in ts[j];
      }
    }

    /** Inside a migration the table already has the target count, so the
        rebalance that each nested insert starts (core/lookup.c:176-180,
        210-214), whatever connection it is for, is a no-op: the nested
        insert is Place. */
    lemma NestedRebalanceIsNoOp()
      requires 0 < partitionCount <= maxPartitions
      requires maximize ==> partitionCount == maxPartitions
      ensures forall c: Connection? :: Target(c) <= partitionCount
    {
    }

    /** A bucket entry matches: same stored hash, same length, same bytes. */
    predicate InBucket(e: Entry, cid: seq<bv8>, hash: nat)
    {
      hashOf(e.cid) == hash && e.cid == cid
    }

    /** QuicHashLookupConnection (core/lookup.c:284-309): the connection of
        the first entry of the bucket for `hash` whose CID matches exactly. */
    method HashLookupConnection(table: seq<Entry>, cid: seq<bv8>, hash: nat) returns (c: Connection?)
      ensures c == null <==> forall k :: 0 <= k < |table| ==> !InBucket(table[k], cid, hash)
      ensures c != null ==> exists k :: 0 <= k < |table| && InBucket(table[k], cid, hash) && table[k].conn == c &&
                                        forall j :: 0 <= j < k ==> !InBucket(table[j], cid, hash)
    {
      var k := 0;
      while k < |table|
        invariant 0 <= k <= |table|
        invariant forall j :: 0 <= j < k ==> !InBucket(table[j], cid, hash)
      {
        var entry := table[k];
        if hashOf(entry.cid) == hash && |entry.cid| == |cid| && entry.cid == cid {
          return entry.conn;
        }
        k := k + 1;
      }
      return null;
    }

    /** QuicLookupFindConnectionInternal (core/lookup.c:313-367): a lookup
        succeeds exactly when some reachable entry has these CID bytes, and
        returns that entry's connection. */
    method FindConnectionInternal(cid: seq<bv8>, hash: nat) returns (c: Connection?)
      requires Shape()
      requires partitionCount > 0 ==> Selectable(cid)
      requires hash == hashOf(cid)
      ensures c == null <==> !Registered(cid)
      ensures c != null ==> Entry(cid, c) in Entries()
    {
      if partitionCount == 0 {
        c := null;
        if single != null {
          var found := CidMatchConnection(single, cid);
          if found {
            c := single;
            var e :| e in single.sourceCIDs && e.cid == cid;
            assert e == Entry(cid, single) && e in Entries();
          } else {
            forall e {:trigger Entries()[e]} | e in Entries()
              ensures e.cid != cid
            {
              assert e in single.sourceCIDs;
            }
          }
        }
      } else {
        var i := PartitionIndex(cid, partitionCount);
        if Registered(cid) {
          // The matching entry lives in the partition the CID selects, under the CID's hash.
          var e :| e in Entries() && e.cid == cid;
          InItsPartition(e);
          var k :| 0 <= k < |tables[i]| && tables[i][k] == e;
          assert InBucket(tables[i][k], cid, hash);
        }
        c := HashLookupConnection(tables[i], cid, hash);
        if c != null {
          var k :| 0 <= k < |tables[i]| && InBucket(tables[i][k], cid, hash) && tables[i][k].conn == c;
          assert tables[i][k] == Entry(cid, c);
          BagMember(tables, tables[i][k]);
          assert Entry(cid, c) in Entries();
        }
      }
    }

    /** QuicLookupFindConnection (core/lookup.c:472-498): the internal lookup,
        plus one LOOKUP_RESULT reference on the connection found. */
    method FindConnection(cid: seq<bv8>) returns (c: Connection?)
      requires Valid()
      requires partitionCount > 0 ==> Selectable(cid)
      modifies Claimant(cid)`resultRefs
      ensures Valid()
      ensures c == null <==> !Registered(cid)
      ensures c != null ==> Entry(cid, c) in Entries()
      ensures forall o: Connection | old(allocated(o)) ::
                o.resultRefs == old(o.resultRefs) + (if o == c then 1 else 0)
    {
      var hash := hashOf(cid);
      c := FindConnectionInternal(cid, hash);
      if c != null {
        Claimed(cid, c);
        c.resultRefs := c.resultRefs + 1;
      }
    }

    /** QuicLookupFindConnectionByRemoteAddr (core/lookup.c:501-531): the
        address is never inspected; only unpartitioned mode can answer. */
    method FindConnectionByRemoteAddr() returns (c: Connection?)
      modifies SingleSet()`resultRefs
      ensures c == (if partitionCount == 0 then single else null)
      ensures c != null ==> c.resultRefs == old(c.resultRefs) + 1
      ensures c == null && single != null ==> single.resultRefs == old(single.resultRefs)
    {
      c := null;
      if partitionCount == 0 {
        c := single;
      }
      if c != null {
        c.resultRefs := c.resultRefs + 1;
      }
    }

    /** QuicLookupCreateHashTable (core/lookup.c:72-104), with the failure
        test corrected so that a failure at ANY partition, including the
        first, fails the creation. */
    method CreateHashTable(count: nat, alloc: AllocOutcome) returns (ok: bool)
      requires single == null && tables == [] && 0 < count
      modifies this`tables, this`partitionCount
      ensures ok <==> AllocSucceeds(alloc, count)
      ensures ok ==> partitionCount == count && |tables| == count &&
                     forall i :: 0 <= i < count ==> tables[i] == []
      ensures !ok ==> tables == [] && partitionCount == old(partitionCount)
    {
      if !alloc.arrayOk {
        return false;
      }
      tables := seq(count, _ => []);
      var i := 0;
      while i < count && alloc.initOk(i)
        invariant 0 <= i <= count
        invariant forall j :: 0 <= j < i ==> alloc.initOk(j)
      {
        i := i + 1;
      }
      if i < count {
        // Partition i failed: the ones before it are torn down and the array freed.
        tables := [];
        return false;
      }
      partitionCount := count;
      ok := true;
    }

    /** The partitioned branch of QuicLookupInsertSourceConnectionID
        (core/lookup.c:394-413): link the entry into its partition. */
    method Place(e: Entry)
      requires 0 < partitionCount == |tables| && Placed(tables) && Selectable(e.cid)
      modifies this`tables
      ensures |tables| == partitionCount && Placed(tables)
      ensures Bag(tables) == old(Bag(tables)) + multiset{e}
    {
      var i := PartitionIndex(e.cid, partitionCount);
      var grown := tables[i] + [e];
      var updated := tables[i := grown];
      BagAppend(tables, i, e);
      forall j, d: Entry {:trigger d in updated[j]} | 0 <= j < |updated| && d in updated[j]
        ensures Selectable(d.cid) && PartitionIndex(d.cid, |updated|) == j
      {
        if j != i || d != e {
          assert d in tables[j];
        }
      }
      tables := updated;
    }

    /** Migration out of unpartitioned mode (core/lookup.c:166-183): every
        entry on the single connection's list is placed, in list order. */
    method PlaceAll(cids: seq<Entry>)
      requires 0 < partitionCount == |tables| && Placed(tables)
      requires AllSelectable(cids)
      modifies this`tables
      ensures |tables| == partitionCount && Placed(tables)
      ensures Bag(tables) == old(Bag(tables)) + multiset(cids)
    {
      var k := 0;
      while k < |cids|
        invariant 0 <= k <= |cids|
        invariant |tables| == partitionCount && Placed(tables)
        invariant Bag(tables) == old(Bag(tables)) + multiset(cids[..k])
      {
        Place(cids[k]);
        assert cids[..k + 1] == cids[..k] + [cids[k]];
        k := k + 1;
      }
      assert cids[..k] == cids;
    }

    /** Migration between partition arrays (core/lookup.c:185-218): the
        entries of each old partition, one partition after the other, are
        inserted into the new array, after which the old array is freed. */
    method DrainPartitions(previous: seq<seq<Entry>>)
      requires 0 < partitionCount == |tables| && Placed(tables)
      requires forall i :: 0 <= i < |previous| ==> AllSelectable(previous[i])
      modifies this`tables
      ensures |tables| == partitionCount && Placed(tables)
      ensures Bag(tables) == old(Bag(tables)) + Bag(previous)
    {
      var i := 0;
      while i < |previous|
        invariant 0 <= i <= |previous|
        invariant |tables| == partitionCount && Placed(tables)
        invariant Bag(tables) == old(Bag(tables)) + Bag(previous[..i])
      {
        BagPrefix(previous, i);
        PlaceAll(previous[i]);
        i := i + 1;
      }
      assert previous[..i] == previous;
    }

    /** QuicLookupRebalance (core/lookup.c:112-223). The structure changes
        only when the target exceeds the current count; a failed allocation
        restores the previous table exactly; a migration keeps every
        reachable entry, the registered count and every reference count. */
    method Rebalance(conn: Connection?, alloc: AllocOutcome) returns (ok: bool)
      requires Shape() && ReadyToGrow(conn)
      modifies this
      ensures Shape()
      ensures maximize == old(maximize) && cidCount == old(cidCount)
      ensures Entries() == old(Entries())
      ensures ok <==> old(Target(conn)) <= old(partitionCount) || AllocSucceeds(alloc, old(Target(conn)))
      ensures ok ==> partitionCount == Max(old(partitionCount), old(Target(conn)))
      ensures !ok || old(Target(conn)) <= old(partitionCount) ==> unchanged(this)
    {
      var target := Target(conn);
      if target > partitionCount {
        if partitionCount == 0 {
          ok := GrowFromSingle(target, alloc);
        } else {
          ok := GrowPartitions(target, alloc);
        }
        return;
      }
      ok := true;
    }

    /** The growth out of unpartitioned mode (core/lookup.c:138-183): a new
        partition array, the single connection forgotten and its CIDs placed;
        on an allocation failure the single connection is restored. */
    method GrowFromSingle(target: nat, alloc: AllocOutcome) returns (ok: bool)
      requires Shape() && partitionCount == 0 && 0 < target <= maxPartitions
      requires maximize ==> target == maxPartitions
      requires single != null ==> AllSelectable(single.sourceCIDs)
      modifies this
      ensures Shape()
      ensures maximize == old(maximize) && cidCount == old(cidCount)
      ensures Entries() == old(Entries())
      ensures ok <==> AllocSucceeds(alloc, target)
      ensures ok ==> partitionCount == target
      ensures !ok ==> unchanged(this)
    {
      var previousSingle := single;
      single := null;
      ok := CreateHashTable(target, alloc);
      if !ok {
        single := previousSingle;
        return;
      }
      BagOfEmpties(tables);
      NestedRebalanceIsNoOp();
      if previousSingle != null {
        PlaceAll(previousSingle.sourceCIDs);
        owner := Claims(previousSingle.sourceCIDs, previousSingle);
        KeyedClaims(previousSingle.sourceCIDs, previousSingle);
      }
    }

    /** The growth of a partitioned table (core/lookup.c:138-160, 185-218):
        a new, larger partition array into which every old partition is
        drained; on an allocation failure the old array is kept. */
    method GrowPartitions(target: nat, alloc: AllocOutcome) returns (ok: bool)
      requires Shape() && 0 < partitionCount < target <= maxPartitions
      requires maximize ==> target == maxPartitions
      modifies this
      ensures Shape()
      ensures maximize == old(maximize) && cidCount == old(cidCount)
      ensures Entries() == old(Entries())
      ensures ok <==> AllocSucceeds(alloc, target)
      ensures ok ==> partitionCount == target
      ensures !ok ==> unchanged(this)
    {
      var previousCount, previousTables := partitionCount, tables;
      tables := [];
      ok := CreateHashTable(target, alloc);
      if !ok {
        tables := previousTables;
        return;
      }
      BagOfEmpties(tables);
      NestedRebalanceIsNoOp();
      PlacedSelectable(previousTables);
      DrainPartitions(previousTables);
    }

    /** QuicLookupMaximizePartitioning (core/lookup.c:226-246): sets the flag
        once and grows to the global count, rolling the flag back if that fails. */
    method MaximizePartitioning(alloc: AllocOutcome) returns (ok: bool)
      requires Valid()
      requires !maximize && partitionCount == 0 && single != null ==>
                 AllSelectable(single.sourceCIDs)
      modifies this
      ensures Valid()
      ensures Entries() == old(Entries()) && cidCount == old(cidCount)
      ensures old(maximize) ==> ok && unchanged(this)
      ensures !old(maximize) ==> (ok <==> maxPartitions <= old(partitionCount) || AllocSucceeds(alloc, maxPartitions))
      ensures ok ==> maximize && partitionCount == maxPartitions
      ensures !ok ==> unchanged(this)
    {
      ok := true;
      if !maximize {
        maximize := true;
        ok := Rebalance(null, alloc);
        if !ok {
          maximize := false;
        }
      }
    }

    /** QuicLookupInsertSourceConnectionID with UpdateRefCount = TRUE
        (core/lookup.c:374-425). (The calls with FALSE come from migration,
        where the nested rebalance is a no-op: that is Place.) */
    method InsertSourceConnectionID(hash: nat, e: Entry, alloc: AllocOutcome) returns (ok: bool)
      requires Valid() && e.conn.OwnsCIDs() && CanInsert(e) && NoConflict(e)
      requires hash == hashOf(e.cid)
      modifies this, e.conn`tableRefs
      ensures Valid()
      ensures maximize == old(maximize)
      ensures ok <==> old(Target(e.conn)) <= old(partitionCount) || AllocSucceeds(alloc, old(Target(e.conn)))
      ensures ok ==> partitionCount == Max(old(partitionCount), old(Target(e.conn)))
      ensures ok ==> cidCount == old(cidCount) + 1 && e.conn.tableRefs == old(e.conn.tableRefs) + 1
      ensures ok && partitionCount == 0 ==> single == e.conn && Entries() == multiset(e.conn.sourceCIDs)
      ensures ok && partitionCount > 0 ==> Entries() == old(Entries()) + multiset{e}
      ensures old(partitionCount) > 0 && old(Counted()) ==> Counted()
      ensures !ok ==> unchanged(this) && e.conn.tableRefs == old(e.conn.tableRefs)
      ensures e.conn.sourceCIDs == old(e.conn.sourceCIDs)
    {
      ok := Rebalance(e.conn, alloc);
      if !ok {
        return;
      }
      Link(e);
      e.conn.tableRefs := e.conn.tableRefs + 1;
    }

    /** The insertion proper, once the table has the partition count the
        connection needs (core/lookup.c:385-415): unpartitioned mode holds the
        connection itself, partitioned mode links the entry into its partition;
        either way one more registration is counted. */
    method Link(e: Entry)
      requires Valid() && e.conn.OwnsCIDs() && NoConflict(e)
      requires partitionCount == 0 ==> single == null || single == e.conn
      requires partitionCount > 0 ==> Selectable(e.cid)
      modifies this
      ensures Valid()
      ensures maximize == old(maximize) && partitionCount == old(partitionCount)
      ensures cidCount == old(cidCount) + 1
      ensures partitionCount == 0 ==> single == e.conn && Entries() == multiset(e.conn.sourceCIDs)
      ensures partitionCount > 0 ==> Entries() == old(Entries()) + multiset{e}
      ensures partitionCount > 0 && old(Counted()) ==> Counted()
    {
      if partitionCount == 0 {
        if single == null {
          single := e.conn;
        }
      } else {
        assert Entries() == Bag(tables);
        KeyedAdd(Bag(tables), owner, e);
        Place(e);
        owner := owner[e.cid := e.conn];
      }
      cidCount := cidCount + 1;
    }

    /** QuicLookupAddSourceConnectionID (core/lookup.c:534-571). Any existing
        match, even one owned by the same connection, is a collision: nothing
        is inserted and, when asked for, the owner is returned with one more
        LOOKUP_RESULT reference. Otherwise the entry is inserted. */
    method AddSourceConnectionID(entry: Entry, alloc: AllocOutcome, reportCollision: bool)
      returns (ok: bool, collision: Connection?)
      requires Valid() && entry.conn.OwnsCIDs() && CanInsert(entry)
      modifies this, entry.conn`tableRefs, Claimant(entry.cid)`resultRefs
      ensures Valid()
      ensures old(Registered(entry.cid)) ==>
                !ok && unchanged(this) && entry.conn.tableRefs == old(entry.conn.tableRefs)
      ensures old(Registered(entry.cid)) && reportCollision ==>
                collision != null && Entry(entry.cid, collision) in old(Entries())
      ensures !old(Registered(entry.cid)) || !reportCollision ==> collision == null
      ensures !old(Registered(entry.cid)) ==>
                (ok <==> old(Target(entry.conn)) <= old(partitionCount) ||
                         AllocSucceeds(alloc, old(Target(entry.conn))))
      ensures maximize == old(maximize)
      ensures !old(Registered(entry.cid)) && ok ==>
                partitionCount == Max(old(partitionCount), old(Target(entry.conn)))
      ensures !old(Registered(entry.cid)) && ok ==>
                && cidCount == old(cidCount) + 1
                && entry.conn.tableRefs == old(entry.conn.tableRefs) + 1
                && (partitionCount > 0 ==> Entries() == old(Entries()) + multiset{entry})
                && (partitionCount == 0 ==> single == entry.conn && Entries() == multiset(entry.conn.sourceCIDs))
      ensures !ok ==> unchanged(this) && entry.conn.tableRefs == old(entry.conn.tableRefs)
      ensures forall o: Connection | old(allocated(o)) ::
                o.resultRefs == old(o.resultRefs) + (if o == collision then 1 else 0)
      ensures old(partitionCount) > 0 && old(Counted()) ==> Counted()
    {
      var hash := hashOf(entry.cid);
      label Start:
      var existing := FindConnectionInternal(entry.cid, hash);
      Untouched@Start();
      if existing == null {
        Unclaimed(entry);
        ok := InsertSourceConnectionID(hash, entry, alloc);
        collision := null;
      } else {
        ok := false;
        collision := ReportCollision(entry.cid, existing, reportCollision);
        Untouched@Start();
      }
    }

    /** The collision branch of QuicLookupAddSourceConnectionID
        (core/lookup.c:553-560): when asked for, the existing owner is
        returned with one more LOOKUP_RESULT reference. */
    method ReportCollision(cid: seq<bv8>, existing: Connection, report: bool)
      returns (collision: Connection?)
      requires Valid() && Entry(cid, existing) in Entries()
      modifies Claimant(cid)`resultRefs
      ensures collision == (if report then existing else null)
      ensures forall o: Connection | old(allocated(o)) ::
                o.resultRefs == old(o.resultRefs) + (if o == collision then 1 else 0)
    {
      collision := null;
      if report {
        collision := existing;
        Claimed(cid, existing);
        existing.resultRefs := existing.resultRefs + 1;
      }
    }

    /** A CID nobody has registered conflicts with no reachable entry. */
    lemma Unclaimed(e: Entry)
      requires !Registered(e.cid)
      ensures NoConflict(e)
    {
    }

    /** QuicLookupRemoveSourceConnectionIDInt (core/lookup.c:432-469): one
        registration fewer; unpartitioned mode forgets its connection exactly
        when the count reaches 0, partitioned mode unlinks the entry from the
        partition insert chose. */
    method RemoveSourceConnectionIDInt(e: Entry)
      requires Valid() && cidCount != 0
      requires partitionCount == 0 ==> single == e.conn
      requires partitionCount > 0 ==> e in Entries()
      modifies this`cidCount, this`single, this`tables
      ensures Valid()
      ensures cidCount == old(cidCount) - 1
      ensures partitionCount == old(partitionCount) && maximize == old(maximize)
      ensures partitionCount == 0 ==> tables == old(tables) &&
                                      single == (if cidCount == 0 then null else old(single))
      ensures partitionCount > 0 ==> Entries() == old(Entries()) - multiset{e}
      ensures old(Counted()) ==> Counted()
    {
      if partitionCount == 0 {
        Forget();
      } else {
        Unplace(e);
      }
    }

    /** The unpartitioned branch of QuicLookupRemoveSourceConnectionIDInt
        (core/lookup.c:443-453): the count drops, and the connection is
        forgotten when it reaches 0. */
    method Forget()
      requires Valid() && partitionCount == 0 && cidCount != 0
      modifies this`cidCount, this`single
      ensures Valid()
      ensures cidCount == old(cidCount) - 1
      ensures single == (if cidCount == 0 then null else old(single))
    {
      cidCount := cidCount - 1;
      if cidCount == 0 {
        single := null;
      }
    }

    /** The partitioned branch of QuicLookupRemoveSourceConnectionIDInt
        (core/lookup.c:443, 455-467): the count drops and the entry is
        unlinked from the partition its CID selects, which is where insert
        put it. */
    method Unplace(e: Entry)
      requires Valid() && partitionCount > 0 && e in Entries() && cidCount != 0
      modifies this`tables, this`cidCount
      ensures Valid()
      ensures cidCount == old(cidCount) - 1
      ensures Entries() == old(Entries()) - multiset{e}
      ensures old(Counted()) ==> Counted()
    {
      BagMember(tables, e);
      var i := PartitionIndex(e.cid, partitionCount);
      var rest := tables[i := RemoveOne(tables[i], e)];
      UnplaceKeeps(tables, i, e, rest);
      tables := rest;
      cidCount := cidCount - 1;
    }

    /** Unlinking an entry from the partition its CID selects keeps every
        entry placed and keyed, and takes exactly that entry out. */
    lemma UnplaceKeeps(ts: seq<seq<Entry>>, i: nat, e: Entry, rest: seq<seq<Entry>>)
      requires Placed(ts) && Keyed(Bag(ts), owner)
      requires i < |ts| && e in ts[i] && rest == ts[i := RemoveOne(ts[i], e)]
      ensures Placed(rest) && Keyed(Bag(rest), owner)
      ensures Bag(rest) == Bag(ts) - multiset{e} && |Bag(rest)| + 1 == |Bag(ts)|
    {
      BagRemove(ts, i, e);
      PlacedShrink(ts, i, RemoveOne(ts[i], e));
      KeyedRemove(Bag(ts), owner, e);
      BagMember(ts, e);
    }

    /** QuicLookupRemoveSourceConnectionID (core/lookup.c:574-584): the
        removal, then the LOOKUP_TABLE reference is released. */
    method RemoveSourceConnectionID(e: Entry)
      requires Valid() && cidCount != 0
      requires partitionCount == 0 ==> single == e.conn
      requires partitionCount > 0 ==> e in Entries()
      modifies this`cidCount, this`single, this`tables, e.conn`tableRefs
      ensures Valid()
      ensures cidCount == old(cidCount) - 1 && e.conn.tableRefs == old(e.conn.tableRefs) - 1
      ensures partitionCount == old(partitionCount) && maximize == old(maximize)
      ensures partitionCount == 0 ==> single == (if cidCount == 0 then null else old(single))
      ensures partitionCount > 0 ==> Entries() == old(Entries()) - multiset{e}
      ensures old(Counted()) ==> Counted()
    {
      RemoveSourceConnectionIDInt(e);
      label Removed:
      e.conn.tableRefs := e.conn.tableRefs - 1;
      Untouched@Removed();
    }

    /** QuicLookupRemoveSourceConnectionIDs (core/lookup.c:587-611): pops every
        entry off the connection's own list and unlinks it, then releases one
        LOOKUP_TABLE reference per popped entry. The count of releases is
        unbounded here; the source's uint8_t counter is ReleaseCountAsWritten. */
    method RemoveSourceConnectionIDs(conn: Connection)
      requires Valid() && conn.OwnsCIDs() && cidCount >= |conn.sourceCIDs|
      requires partitionCount == 0 && conn.sourceCIDs != [] ==> single == conn
      requires partitionCount > 0 ==> multiset(conn.sourceCIDs) <= Entries()
      modifies this`cidCount, this`single, this`tables, conn`sourceCIDs, conn`tableRefs
      ensures Valid() && conn.sourceCIDs == []
      ensures cidCount == old(cidCount) - |old(conn.sourceCIDs)|
      ensures conn.tableRefs == old(conn.tableRefs) - |old(conn.sourceCIDs)|
      ensures partitionCount == old(partitionCount)
      ensures partitionCount > 0 ==> Entries() == old(Entries()) - multiset(old(conn.sourceCIDs))
      ensures partitionCount == 0 && old(conn.sourceCIDs) != [] ==> Entries() == multiset{}
      ensures partitionCount == 0 ==> single == (if cidCount == 0 then null else old(single))
      ensures old(Counted()) ==> Counted()
    {
      ghost var others := Entries() - multiset(conn.sourceCIDs);
      ghost var wasCounted := Counted();
      StartDraining(conn);
      var released := 0;
      while conn.sourceCIDs != []
        invariant Draining(conn, |old(conn.sourceCIDs)|, released, old(cidCount), others, wasCounted)
        invariant partitionCount == old(partitionCount)
        invariant conn.tableRefs == old(conn.tableRefs)
        invariant released == 0 ==> single == old(single)
        decreases |conn.sourceCIDs|
      {
        PopSourceConnectionID(conn, |old(conn.sourceCIDs)|, released, old(cidCount), others, wasCounted);
        released := released + 1;
      }
      FinishDraining(conn, |old(conn.sourceCIDs)|, released, old(cidCount), others, wasCounted);
      label Drained:
      ReleaseTableRefs(conn, released);
      Untouched@Drained();
    }

    /** The drain starts with nothing released. */
    lemma StartDraining(conn: Connection)
      requires Valid() && conn.OwnsCIDs() && cidCount >= |conn.sourceCIDs|
      requires partitionCount == 0 && conn.sourceCIDs != [] ==> single == conn
      requires partitionCount > 0 ==> multiset(conn.sourceCIDs) <= Entries()
      ensures Draining(conn, |conn.sourceCIDs|, 0, cidCount,
                       Entries() - multiset(conn.sourceCIDs), Counted())
    {
      if partitionCount > 0 {
        DiffSum(multiset(conn.sourceCIDs), Entries());
      }
    }

    /** Once the list is empty, every CID it held has been released and
        nothing else is reachable any more. */
    lemma FinishDraining(conn: Connection, total: nat, released: nat,
                         count: nat, others: multiset<Entry>, wasCounted: bool)
      requires Draining(conn, total, released, count, others, wasCounted) && conn.sourceCIDs == []
      ensures Valid() && released == total && cidCount + total == count
      ensures partitionCount > 0 ==> Entries() == others
      ensures partitionCount == 0 && total != 0 ==> Entries() == multiset{}
      ensures wasCounted ==> Counted()
    {
    }

    /** The release loop of QuicLookupRemoveSourceConnectionIDs
        (core/lookup.c:608-610): one LOOKUP_TABLE reference per popped entry. */
    method ReleaseTableRefs(conn: Connection, count: nat)
      modifies conn`tableRefs
      ensures conn.tableRefs == old(conn.tableRefs) - count
    {
      var i := 0;
      while i < count
        invariant 0 <= i <= count
        invariant conn.tableRefs == old(conn.tableRefs) - i
      {
        conn.tableRefs := conn.tableRefs - 1;
        i := i + 1;
      }
    }

    /** The state of QuicLookupRemoveSourceConnectionIDs after `released` of
        the `total` entries on the connection's list have been popped and
        unlinked: the table is valid, the count dropped by exactly as many,
        and in partitioned mode the reachable entries are the `others` that
        were never on the list plus what is still on it. */
    ghost predicate Draining(conn: Connection, total: nat, released: nat,
                             count: nat, others: multiset<Entry>, wasCounted: bool)
      reads this, SingleSet()`sourceCIDs, conn`sourceCIDs
    {
      && Valid() && conn.OwnsCIDs()
      && |conn.sourceCIDs| + released == total
      && cidCount + released == count && cidCount >= |conn.sourceCIDs|
      && (partitionCount == 0 && conn.sourceCIDs != [] ==> single == conn)
      && (partitionCount == 0 && released > 0 ==> single == (if cidCount == 0 then null else conn))
      && (partitionCount > 0 ==> Entries() == others + multiset(conn.sourceCIDs))
      && (wasCounted ==> Counted())
    }

    /** One iteration of the loop of QuicLookupRemoveSourceConnectionIDs
        (core/lookup.c:595-604): pop the first entry off the connection's own
        list and unlink it from the table. */
    method PopSourceConnectionID(conn: Connection, ghost total: nat, ghost released: nat,
                                 ghost count: nat, ghost others: multiset<Entry>, ghost wasCounted: bool)
      requires Draining(conn, total, released, count, others, wasCounted) && conn.sourceCIDs != []
      modifies this`cidCount, this`single, this`tables, conn`sourceCIDs
      ensures Draining(conn, total, released + 1, count, others, wasCounted)
    {
      var e := conn.sourceCIDs[0];
      var rest := conn.sourceCIDs[1..];
      assert conn.sourceCIDs == [e] + rest;
      conn.sourceCIDs := rest;
      RemoveSourceConnectionIDInt(e);
    }

    /** The state of the first loop of QuicLookupMoveSourceConnectionIDs
        after the first `k` CIDs of the connection have been unlinked from
        this table and their LOOKUP_TABLE references released; in partitioned
        mode the reachable entries are the `others` that were never on the
        list plus the CIDs still to go. */
    ghost predicate MovingOut(conn: Connection, k: nat, count: nat, refs: int,
                              others: multiset<Entry>, wasCounted: bool)
      reads this, SingleSet()`sourceCIDs, conn`sourceCIDs, conn`tableRefs
    {
      && Valid() && conn.OwnsCIDs()
      && k <= |conn.sourceCIDs|
      && cidCount + k == count && cidCount + k >= |conn.sourceCIDs|
      && conn.tableRefs + k == refs
      && (partitionCount == 0 && k < |conn.sourceCIDs| ==> single == conn)
      && (partitionCount == 0 && k > 0 ==> single == (if cidCount == 0 then null else conn))
      && (partitionCount > 0 ==> Entries() == others + multiset(conn.sourceCIDs[k..]))
      && (wasCounted ==> Counted())
    }

    /** One iteration of the first loop of QuicLookupMoveSourceConnectionIDs
        (core/lookup.c:624-631): unlink the k-th CID and release its reference. */
    method MoveOutOne(conn: Connection, k: nat, ghost count: nat, ghost refs: int,
                      ghost others: multiset<Entry>, ghost wasCounted: bool)
      requires MovingOut(conn, k, count, refs, others, wasCounted) && k < |conn.sourceCIDs|
      modifies this`cidCount, this`single, this`tables, conn`tableRefs
      ensures MovingOut(conn, k + 1, count, refs, others, wasCounted)
    {
      var e := conn.sourceCIDs[k];
      assert conn.sourceCIDs[k..] == [e] + conn.sourceCIDs[k + 1..];
      RemoveSourceConnectionID(e);
    }

    /** The first half of QuicLookupMoveSourceConnectionIDs (core/lookup.c:620-633),
        run on the source table: every CID on the connection's list (which
        is left as it is) is unlinked, and one LOOKUP_TABLE reference is
        released per CID. */
    method MoveOut(conn: Connection)
      requires Valid() && conn.OwnsCIDs() && cidCount >= |conn.sourceCIDs|
      requires partitionCount == 0 && conn.sourceCIDs != [] ==> single == conn
      requires partitionCount > 0 ==> multiset(conn.sourceCIDs) <= Entries()
      modifies this`cidCount, this`single, this`tables, conn`tableRefs
      ensures Valid()
      ensures cidCount == old(cidCount) - |conn.sourceCIDs|
      ensures conn.tableRefs == old(conn.tableRefs) - |conn.sourceCIDs|
      ensures partitionCount > 0 ==> Entries() == old(Entries()) - multiset(conn.sourceCIDs)
      ensures partitionCount == 0 ==> single == (if cidCount == 0 then null else old(single))
      ensures old(Counted()) ==> Counted()
    {
      ghost var others := Entries() - multiset(conn.sourceCIDs);
      ghost var wasCounted := Counted();
      if partitionCount > 0 {
        DiffSum(multiset(conn.sourceCIDs), Entries());
      }
      assert conn.sourceCIDs[0..] == conn.sourceCIDs;
      var k := 0;
      while k < |conn.sourceCIDs|
        invariant MovingOut(conn, k, old(cidCount), old(conn.tableRefs), others, wasCounted)
        invariant conn.sourceCIDs == old(conn.sourceCIDs) && partitionCount == old(partitionCount)
        invariant k == 0 ==> single == old(single)
      {
        MoveOutOne(conn, k, old(cidCount), old(conn.tableRefs), others, wasCounted);
        k := k + 1;
      }
      assert conn.sourceCIDs[k..] == [];
    }

    /** The state of the second loop of QuicLookupMoveSourceConnectionIDs
        after the first `k` CIDs of the connection have been inserted here. */
    ghost predicate MovingIn(conn: Connection, k: nat, count: nat, refs: int,
                             start: multiset<Entry>, wasCounted: bool)
      reads this, SingleSet()`sourceCIDs, conn`sourceCIDs, conn`tableRefs
    {
      && Valid() && Accepts(conn) && conn.OwnsCIDs()
      && k <= |conn.sourceCIDs|
      && cidCount == count + k && conn.tableRefs == refs + k
      && (k == 0 ==> Entries() == start)
      && (k > 0 && partitionCount == 0 ==> single == conn && Entries() == multiset(conn.sourceCIDs))
      && (partitionCount > 0 ==> Entries() == start + multiset(conn.sourceCIDs[..k]))
      && (wasCounted ==> partitionCount > 0 && Counted())
    }

    /** Before the k-th insert of the second loop: the entry may be inserted,
        and whatever mode the insert leaves the table in, the rest of
        MovingIn will follow. */
    lemma ReadyToMoveIn(conn: Connection, k: nat, count: nat, refs: int,
                        start: multiset<Entry>, wasCounted: bool)
      requires MovingIn(conn, k, count, refs, start, wasCounted) && k < |conn.sourceCIDs|
      ensures conn.sourceCIDs[k].conn == conn
      ensures CanInsert(conn.sourceCIDs[k]) && NoConflict(conn.sourceCIDs[k])
      ensures Agrees(Entries() + multiset{conn.sourceCIDs[k]}, conn.sourceCIDs, conn)
      ensures partitionCount > 0 || Target(conn) > 0 ==>
                && Entries() == start + multiset(conn.sourceCIDs[..k])
                && AllSelectable(conn.sourceCIDs)
      ensures k > 0 ==> Target(conn) <= partitionCount
    {
      var e := conn.sourceCIDs[k];
      assert partitionCount == 0 && k > 0 ==> Target(conn) == 0;
      assert e in conn.sourceCIDs && e.cid in CidsOf(conn.sourceCIDs);
      AgreesAdd(Entries(), conn.sourceCIDs, conn, e);
    }

    /** After the k-th insert of the second loop: the facts the insert
        leaves behind make up MovingIn for k + 1. */
    lemma MovedIn(conn: Connection, k: nat, count: nat, refs: int,
                  start: multiset<Entry>, wasCounted: bool)
      requires Valid() && conn.OwnsCIDs() && k < |conn.sourceCIDs|
      requires cidCount == count + k + 1 && conn.tableRefs == refs + k + 1
      requires partitionCount == 0 ==> single == conn && Entries() == multiset(conn.sourceCIDs)
      requires partitionCount > 0 ==>
                 && Entries() == start + multiset(conn.sourceCIDs[..k]) + multiset{conn.sourceCIDs[k]}
                 && Agrees(Entries(), conn.sourceCIDs, conn)
                 && AllSelectable(conn.sourceCIDs)
      requires wasCounted ==> partitionCount > 0 && Counted()
      ensures MovingIn(conn, k + 1, count, refs, start, wasCounted)
    {
      assert conn.sourceCIDs[..k + 1] == conn.sourceCIDs[..k] + [conn.sourceCIDs[k]];
      if partitionCount == 0 {
        AgreesOwn(conn.sourceCIDs, conn);
      }
    }

    /** One iteration of the second loop of QuicLookupMoveSourceConnectionIDs
        (core/lookup.c:638-651): insert the k-th CID, taking a LOOKUP_TABLE
        reference; the source asserts that this succeeds. */
    method MoveInOne(conn: Connection, k: nat, ghost count: nat, ghost refs: int,
                     ghost start: multiset<Entry>, ghost wasCounted: bool)
      requires MovingIn(conn, k, count, refs, start, wasCounted) && k < |conn.sourceCIDs|
      modifies this, conn`tableRefs
      ensures MovingIn(conn, k + 1, count, refs, start, wasCounted)
      ensures partitionCount == Max(old(partitionCount), old(Target(conn)))
      ensures k > 0 ==> partitionCount == old(partitionCount)
      ensures maximize == old(maximize)
    {
      var e := conn.sourceCIDs[k];
      ReadyToMoveIn(conn, k, count, refs, start, wasCounted);
      var ok := InsertSourceConnectionID(hashOf(e.cid), e, AllocOutcome(true, _ => true));
      assert ok;
      MovedIn(conn, k, count, refs, start, wasCounted);
    }

    /** The second half of QuicLookupMoveSourceConnectionIDs (core/lookup.c:635-652),
        run on the destination table: every CID on the connection's list is
        inserted, each taking a LOOKUP_TABLE reference. */
    method MoveIn(conn: Connection)
      requires Valid() && Accepts(conn) && conn.OwnsCIDs()
      modifies this, conn`tableRefs
      ensures Valid()
      ensures partitionCount >= old(partitionCount) && maximize == old(maximize)
      ensures conn.sourceCIDs != [] ==> partitionCount == Max(old(partitionCount), old(Target(conn)))
      ensures conn.sourceCIDs == [] ==>
                partitionCount == old(partitionCount) && single == old(single) && Entries() == old(Entries())
      ensures cidCount == old(cidCount) + |conn.sourceCIDs|
      ensures conn.tableRefs == old(conn.tableRefs) + |conn.sourceCIDs|
      ensures partitionCount > 0 ==> Entries() == old(Entries()) + multiset(conn.sourceCIDs)
      ensures conn.sourceCIDs != [] && partitionCount == 0 ==>
                single == conn && Entries() == multiset(conn.sourceCIDs)
      ensures old(partitionCount) > 0 && old(Counted()) ==> Counted()
    {
      ghost var start, count, refs := Entries(), cidCount, conn.tableRefs;
      ghost var wasCounted := partitionCount > 0 && Counted();
      ghost var startCount, startMaximize, startTarget := partitionCount, maximize, Target(conn);
      ghost var startSingle := single;
      StartMoveIn(conn);
      var k := 0;
      while k < |conn.sourceCIDs|
        invariant k <= |conn.sourceCIDs|
        invariant MovingIn(conn, k, count, refs, start, wasCounted)
        invariant conn.sourceCIDs == old(conn.sourceCIDs)
        invariant maximize == startMaximize
        invariant k == 0 ==> partitionCount == startCount && single == startSingle
        invariant k > 0 ==> partitionCount == Max(startCount, startTarget)
      {
        MoveInOne(conn, k, count, refs, start, wasCounted);
        k := k + 1;
      }
      FinishMoveIn(conn, k, count, refs, start, wasCounted);
    }

    /** The second loop starts in MovingIn with nothing inserted. */
    lemma StartMoveIn(conn: Connection)
      requires Valid() && Accepts(conn) && conn.OwnsCIDs()
      ensures MovingIn(conn, 0, cidCount, conn.tableRefs, Entries(), partitionCount > 0 && Counted())
    {
      assert conn.sourceCIDs[..0] == [];
    }

    /** Once every CID is inserted, MovingIn gives MoveIn's postcondition. */
    lemma FinishMoveIn(conn: Connection, k: nat, count: nat, refs: int,
                       start: multiset<Entry>, wasCounted: bool)
      requires MovingIn(conn, k, count, refs, start, wasCounted) && k == |conn.sourceCIDs|
      ensures Valid()
      ensures cidCount == count + |conn.sourceCIDs| && conn.tableRefs == refs + |conn.sourceCIDs|
      ensures partitionCount > 0 ==> Entries() == start + multiset(conn.sourceCIDs)
      ensures conn.sourceCIDs != [] && partitionCount == 0 ==>
                single == conn && Entries() == multiset(conn.sourceCIDs)
      ensures wasCounted ==> Counted()
    {
      assert conn.sourceCIDs[..|conn.sourceCIDs|] == conn.sourceCIDs;
    }
  }

  /** QuicLookupMoveSourceConnectionIDs (core/lookup.c:614-653): every CID of
      the connection is removed from `src` (releasing its LOOKUP_TABLE
      reference), then every one is inserted into `dst` (taking it again).
      The source asserts that each destination insert succeeds. */
  method MoveSourceConnectionIDs(src: Lookup, dst: Lookup, conn: Connection)
    requires src != dst
    requires src.Valid() && dst.Valid() && conn.OwnsCIDs()
    requires src.cidCount >= |conn.sourceCIDs|
    requires src.partitionCount == 0 && conn.sourceCIDs != [] ==> src.single == conn
    requires src.partitionCount > 0 ==> multiset(conn.sourceCIDs) <= src.Entries()
    requires dst.Accepts(conn)
    modifies src, dst, conn`tableRefs
    ensures src.Valid() && dst.Valid()
    ensures conn.tableRefs == old(conn.tableRefs)
    ensures src.partitionCount == old(src.partitionCount) && src.maximize == old(src.maximize)
    ensures src.cidCount == old(src.cidCount) - |conn.sourceCIDs|
    ensures src.partitionCount > 0 ==> src.Entries() == old(src.Entries()) - multiset(conn.sourceCIDs)
    ensures src.partitionCount == 0 ==> src.single == (if src.cidCount == 0 then null else old(src.single))
    ensures dst.partitionCount >= old(dst.partitionCount) && dst.maximize == old(dst.maximize)
    ensures conn.sourceCIDs != [] ==>
              dst.partitionCount == Max(old(dst.partitionCount), old(dst.Target(conn)))
    ensures conn.sourceCIDs == [] ==>
              dst.partitionCount == old(dst.partitionCount) && dst.single == old(dst.single) &&
              dst.Entries() == old(dst.Entries())
    ensures dst.cidCount == old(dst.cidCount) + |conn.sourceCIDs|
    ensures dst.partitionCount > 0 ==> dst.Entries() == old(dst.Entries()) + multiset(conn.sourceCIDs)
    ensures conn.sourceCIDs != [] && dst.partitionCount == 0 ==>
              dst.single == conn && dst.Entries() == multiset(conn.sourceCIDs)
  {
    MoveOutOf(src, dst, conn);
    MoveInto(src, dst, conn);
  }

  /** The first loop of QuicLookupMoveSourceConnectionIDs (core/lookup.c:620-633)
      seen from both tables: `src` lets every CID go, `dst` is left alone. */
  method MoveOutOf(src: Lookup, dst: Lookup, conn: Connection)
    requires src != dst
    requires src.Valid() && conn.OwnsCIDs() && src.cidCount >= |conn.sourceCIDs|
    requires src.partitionCount == 0 && conn.sourceCIDs != [] ==> src.single == conn
    requires src.partitionCount > 0 ==> multiset(conn.sourceCIDs) <= src.Entries()
    requires dst.Valid() && dst.Accepts(conn)
    modifies src, conn`tableRefs
    ensures src.Valid()
    ensures src.partitionCount == old(src.partitionCount) && src.maximize == old(src.maximize)
    ensures src.cidCount == old(src.cidCount) - |conn.sourceCIDs|
    ensures conn.tableRefs == old(conn.tableRefs) - |conn.sourceCIDs|
    ensures src.partitionCount > 0 ==> src.Entries() == old(src.Entries()) - multiset(conn.sourceCIDs)
    ensures src.partitionCount == 0 ==> src.single == (if src.cidCount == 0 then null else old(src.single))
    ensures dst.Valid() && dst.Accepts(conn) && dst.Entries() == old(dst.Entries())
  {
    ghost var wasMaximized := src.maximize;
    label Start:
    src.MoveOut(conn);
    assert src.maximize == wasMaximized;
    dst.StillAccepts@Start(conn);
  }

  /** The second loop of QuicLookupMoveSourceConnectionIDs (core/lookup.c:635-652)
      seen from both tables: `dst` takes every CID in, `src` is left alone. */
  method MoveInto(src: Lookup, dst: Lookup, conn: Connection)
    requires src != dst && src.Valid()
    requires dst.Valid() && dst.Accepts(conn) && conn.OwnsCIDs()
    modifies dst, conn`tableRefs
    ensures src.Valid() && src.Entries() == old(src.Entries())
    ensures dst.Valid()
    ensures dst.partitionCount >= old(dst.partitionCount) && dst.maximize == old(dst.maximize)
    ensures conn.sourceCIDs != [] ==>
              dst.partitionCount == Max(old(dst.partitionCount), old(dst.Target(conn)))
    ensures conn.sourceCIDs == [] ==>
              dst.partitionCount == old(dst.partitionCount) && dst.single == old(dst.single) &&
              dst.Entries() == old(dst.Entries())
    ensures dst.cidCount == old(dst.cidCount) + |conn.sourceCIDs|
    ensures conn.tableRefs == old(conn.tableRefs) + |conn.sourceCIDs|
    ensures dst.partitionCount > 0 ==> dst.Entries() == old(dst.Entries()) + multiset(conn.sourceCIDs)
    ensures conn.sourceCIDs != [] && dst.partitionCount == 0 ==>
              dst.single == conn && dst.Entries() == multiset(conn.sourceCIDs)
  {
    label Start:
    dst.MoveIn(conn);
    src.Untouched@Start();
  }
}
