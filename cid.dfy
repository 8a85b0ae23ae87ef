/** Connection-ID entries, the connections that own them, and the multiset
    view of an array of partitions used by the lookup index. */
module CidEntries {

  /** A QUIC_CID_HASH_ENTRY: the CID bytes and the (non-owning) link back to
      the connection that owns the entry. */
  datatype Entry = Entry(cid: seq<bv8>, conn: Connection)

  /** The facets of a QUIC_CONNECTION the index depends on: its own ordered
      list of source CIDs, and the reference counts it keeps for the two
      reasons the index uses (LOOKUP_TABLE and LOOKUP_RESULT). */
  class Connection {
    var sourceCIDs: seq<Entry>
    var tableRefs: int
    var resultRefs: int

    constructor ()
      ensures sourceCIDs == [] && tableRefs == 0 && resultRefs == 0
    {
      sourceCIDs := [];
      tableRefs := 0;
      resultRefs := 0;
    }

    /** Every entry on the connection's own list names this connection. */
    ghost predicate OwnsCIDs()
      reads this`sourceCIDs
    {
      forall i :: 0 <= i < |sourceCIDs| ==> sourceCIDs[i].conn == this
    }
  }

  /** QuicCidMatchConnection (core/lookup.c:255-276): walks the connection's
      own list; a CID matches an entry when both the length and the bytes are
      equal, so a zero-length CID matches only a zero-length entry. */
  method CidMatchConnection(conn: Connection, cid: seq<bv8>) returns (found: bool)
    ensures found <==> exists e {:trigger e in conn.sourceCIDs} :: e in conn.sourceCIDs && e.cid == cid
  {
    var cids := conn.sourceCIDs;
    var i := 0;
    while i < |cids|
      invariant 0 <= i <= |cids|
      invariant forall j :: 0 <= j < i ==> cids[j].cid != cid
    {
      if |cids[i].cid| == |cid| && (|cid| == 0 || cids[i].cid == cid) {
        assert cids[i] in cids;
        return true;
      }
      i := i + 1;
    }
    return false;
  }

  /** All entries held by an array of partitions, counted with multiplicity. */
  ghost function Bag<T>(ts: seq<seq<T>>): multiset<T>
  {
    if ts == [] then multiset{} else multiset(ts[0]) + Bag(ts[1..])
  }

  /** An entry is held by the partitions exactly when one partition holds it. */
  lemma {:induction false} BagMember<T>(ts: seq<seq<T>>, x: T)
    ensures x in Bag(ts) <==> exists i :: 0 <= i < |ts| && x in ts[i]
  {
    if ts != [] {
      BagMember(ts[1..], x);
      if x in Bag(ts[1..]) {
        var i :| 0 <= i < |ts[1..]| && x in ts[1..][i];
        assert x in ts[i + 1];
      }
      if exists i :: 1 <= i < |ts| && x in ts[i] {
        var i :| 1 <= i < |ts| && x in ts[i];
        assert x in ts[1..][i - 1];
      }
    }
  }

  /** Appending an entry to one partition adds exactly that entry. */
  lemma {:induction false} BagAppend<T>(ts: seq<seq<T>>, i: nat, x: T)
    requires i < |ts|
    ensures Bag(ts[i := ts[i] + [x]]) == Bag(ts) + multiset{x}
  {
    if i == 0 {
      assert ts[i := ts[i] + [x]][1..] == ts[1..];
      assert multiset(ts[0] + [x]) == multiset(ts[0]) + multiset{x};
    } else {
      var rest := ts[1..];
      BagAppend(rest, i - 1, x);
      assert ts[i := ts[i] + [x]][1..] == rest[i - 1 := rest[i - 1] + [x]];
    }
  }

  /** Replacing one partition by a sub-multiset of it takes away exactly the difference. */
  lemma {:induction false} BagShrink<T>(ts: seq<seq<T>>, i: nat, s: seq<T>)
    requires i < |ts| && multiset(s) <= multiset(ts[i])
    ensures Bag(ts[i := s]) == Bag(ts) - (multiset(ts[i]) - multiset(s))
  {
    var gone := multiset(ts[i]) - multiset(s);
    if i == 0 {
      assert ts[i := s][1..] == ts[1..];
      ReplaceSum(multiset(ts[0]), multiset(s), Bag(ts[1..]));
    } else {
      var rest := ts[1..];
      BagShrink(rest, i - 1, s);
      assert ts[i := s][1..] == rest[i - 1 := s];
      assert gone <= Bag(rest) by {
        BagMemberCount(rest, i - 1);
      }
      SubtractSum(multiset(ts[0]), Bag(rest), gone);
    }
  }

  /** Swapping a part `b` of `a` in for `a` takes away what `b` lacks. */
  lemma ReplaceSum<T>(a: multiset<T>, b: multiset<T>, c: multiset<T>)
    requires b <= a
    ensures b + c == (a + c) - (a - b)
  {
  }

  /** Taking away a part of one summand takes it away from the sum. */
  lemma SubtractSum<T>(a: multiset<T>, b: multiset<T>, d: multiset<T>)
    requires d <= b
    ensures a + (b - d) == (a + b) - d
  {
  }

  /** Unlinking one held entry from one partition takes away exactly that entry. */
  lemma BagRemove<T>(ts: seq<seq<T>>, i: nat, x: T)
    requires i < |ts| && x in ts[i]
    ensures Bag(ts[i := RemoveOne(ts[i], x)]) == Bag(ts) - multiset{x}
  {
    BagShrink(ts, i, RemoveOne(ts[i], x));
  }

  /** One partition's entries are part of the bag. */
  lemma {:induction false} BagMemberCount<T>(ts: seq<seq<T>>, i: nat)
    requires i < |ts|
    ensures multiset(ts[i]) <= Bag(ts)
  {
    if i > 0 {
      BagMemberCount(ts[1..], i - 1);
    }
  }

  /** The bag of two runs of partitions is the sum of their bags. */
  lemma {:induction false} BagConcat<T>(a: seq<seq<T>>, b: seq<seq<T>>)
    ensures Bag(a + b) == Bag(a) + Bag(b)
  {
    if a != [] {
      BagConcat(a[1..], b);
      assert (a + b)[1..] == a[1..] + b;
    } else {
      assert a + b == b;
    }
  }

  /** Extending a prefix of the partitions by one adds that partition's entries. */
  lemma BagPrefix<T>(ts: seq<seq<T>>, i: nat)
    requires i < |ts|
    ensures Bag(ts[..i + 1]) == Bag(ts[..i]) + multiset(ts[i])
  {
    assert ts[..i + 1] == ts[..i] + [ts[i]];
    BagConcat(ts[..i], [ts[i]]);
    assert Bag([ts[i]]) == multiset(ts[i]) + Bag([ts[i]][1..]);
  }

  /** Partitions that are all empty hold nothing. */
  lemma {:induction false} BagOfEmpties<T>(ts: seq<seq<T>>)
    requires forall i :: 0 <= i < |ts| ==> ts[i] == []
    ensures Bag(ts) == multiset{}
  {
    if ts != [] {
      assert ts[0] == [];
      BagOfEmpties(ts[1..]);
    }
  }

  /** What is left after taking part of a multiset away. */
  lemma DiffSum<T>(b: multiset<T>, c: multiset<T>)
    requires b <= c
    ensures (c - b) + b == c
  {
  }

  /** What QuicHashtableRemove does to one partition: unlink one occurrence. */
  function RemoveOne<T(==)>(s: seq<T>, x: T): (r: seq<T>)
    ensures x in s ==> multiset(r) == multiset(s) - multiset{x}
    ensures x !in s ==> r == s
    ensures multiset(r) <= multiset(s)
  {
    if s == [] then []
    else if s[0] == x then (assert s == [s[0]] + s[1..]; s[1..])
    else (assert s == [s[0]] + s[1..]; [s[0]] + RemoveOne(s[1..], x))
  }

  /** Equal CID bytes always lead to the same connection. */
  ghost predicate Unambiguous(m: multiset<Entry>)
  {
    forall a, b {:trigger m[a], m[b]} :: a in m && b in m && a.cid == b.cid ==> a.conn == b.conn
  }

  /** Every entry of `m` is filed under its bytes with its own connection. */
  ghost predicate Keyed(m: multiset<Entry>, owner: map<seq<bv8>, Connection>)
  {
    forall d {:trigger m[d]} :: d in m ==> d.cid in owner && owner[d.cid] == d.conn
  }

  /** A keyed multiset is unambiguous. */
  lemma KeyedUnambiguous(m: multiset<Entry>, owner: map<seq<bv8>, Connection>)
    requires Keyed(m, owner)
    ensures Unambiguous(m)
  {
    forall a, b {:trigger m[a], m[b]} | a in m && b in m && a.cid == b.cid
      ensures a.conn == b.conn
    {
      assert owner[a.cid] == a.conn && owner[b.cid] == b.conn;
    }
  }

  /** Removing an entry keeps the rest keyed. */
  lemma KeyedRemove(m: multiset<Entry>, owner: map<seq<bv8>, Connection>, x: Entry)
    requires Keyed(m, owner)
    ensures Keyed(m - multiset{x}, owner)
  {
  }

  /** Filing a new entry under its bytes keeps the others keyed when no
      entry with those bytes belongs to another connection. */
  lemma KeyedAdd(m: multiset<Entry>, owner: map<seq<bv8>, Connection>, e: Entry)
    requires Keyed(m, owner)
    requires forall d {:trigger m[d]} :: d in m && d.cid == e.cid ==> d.conn == e.conn
    ensures Keyed(m + multiset{e}, owner[e.cid := e.conn])
  {
  }

  /** Every entry of the list filed under its bytes with `conn`. */
  ghost function Claims(cids: seq<Entry>, conn: Connection): map<seq<bv8>, Connection>
  {
    if cids == [] then map[]
    else Claims(cids[..|cids| - 1], conn)[cids[|cids| - 1].cid := conn]
  }

  /** A list whose entries all belong to `conn` is keyed by its claims. */
  lemma {:induction false} KeyedClaims(cids: seq<Entry>, conn: Connection)
    requires forall i :: 0 <= i < |cids| ==> cids[i].conn == conn
    ensures Keyed(multiset(cids), Claims(cids, conn))
  {
    if cids != [] {
      var init, last := cids[..|cids| - 1], cids[|cids| - 1];
      assert cids == init + [last];
      KeyedClaims(init, conn);
      forall d: Entry {:trigger multiset(init)[d]} | d in multiset(init)
        ensures d.conn == conn
      {
        assert d in init;
      }
      KeyedAdd(multiset(init), Claims(init, conn), last);
    }
  }

  /** The CID bytes of a list of entries. */
  ghost function CidsOf(cids: seq<Entry>): set<seq<bv8>>
  {
    set e {:trigger e in cids} | e in cids :: e.cid
  }

  /** No entry of `m` carrying the bytes of one of `cids` belongs to a
      connection other than `conn`. */
  ghost predicate Agrees(m: multiset<Entry>, cids: seq<Entry>, conn: Connection)
  {
    forall d {:trigger m[d]} :: d in m && d.cid in CidsOf(cids) ==> d.conn == conn
  }

  /** Adding an entry of `conn` keeps the agreement. */
  lemma AgreesAdd(m: multiset<Entry>, cids: seq<Entry>, conn: Connection, x: Entry)
    requires Agrees(m, cids, conn) && x.conn == conn
    ensures Agrees(m + multiset{x}, cids, conn)
  {
  }

  /** A list whose entries all belong to `conn` agrees with itself. */
  lemma AgreesOwn(cids: seq<Entry>, conn: Connection)
    requires forall i :: 0 <= i < |cids| ==> cids[i].conn == conn
    ensures Agrees(multiset(cids), cids, conn)
  {
    forall d {:trigger multiset(cids)[d]} | d in multiset(cids)
      ensures d.conn == conn
    {
      assert d in cids;
    }
  }
}
