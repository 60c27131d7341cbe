/** The catalog store as it runs: cursor loops over the buckets, one transaction per
    method, refining the transactions of module Catalog. */
module CatalogStore {
  import opened Basics
  import opened Bucket
  import C = Catalog
  import opened CatalogLaws
  type Entry = C.Entry
  type OwnerHint = C.OwnerHint
  type Avail = C.Avail

  // ---- what a prefix scan lists ----

  lemma {:induction false} PrefixedIsOwned(rows: seq<Row<Entry>>, o: Id)
    requires C.KeysMatch(rows)
    ensures Filter(Map(rows, C.RowVal()), C.OwnedBy(o)) == Map(Filter(rows, HasPrefix(o)), C.RowVal())
  {
    if rows != [] {
      assert rows[0] in rows;
      C.KeyPrefix(o, rows[0].val.owner, rows[0].val.fileID);
      assert C.KeysMatch(rows[1..]);
      PrefixedIsOwned(rows[1..], o);
      assert Map(rows, C.RowVal())[1..] == Map(rows[1..], C.RowVal());
    }
  }

  lemma FiltersCommute(s: seq<Entry>, p: Entry -> bool, q: Entry -> bool)
    ensures Filter(Filter(s, p), q) == Filter(Filter(s, q), p)
  {
    var both := (e: Entry) => p(e) && q(e);
    FilterTwice(s, p, q, both);
    FilterTwice(s, q, p, both);
  }

  function LiveVals(rows: seq<Row<Entry>>): seq<Entry> {
    Filter(Map(rows, C.RowVal()), C.Live())
  }

  /** Seek-then-scan lists one owner's live entries, in the order of the whole list. */
  lemma ScanListsOwner(db: C.Db, o: Id)
    requires C.Valid(db)
    ensures var n := Seek(db.entries, o);
            C.ByOwner(db, o) == LiveVals(db.entries[n..BlockEnd(db.entries, o, n)])
  {
    var vals := Map(db.entries, C.RowVal());
    FiltersCommute(vals, C.Live(), C.OwnedBy(o));
    PrefixedIsOwned(db.entries, o);
    ScanIsFilter(db.entries, o);
  }

  lemma LiveValsAppend(a: seq<Row<Entry>>, b: seq<Row<Entry>>)
    ensures LiveVals(a + b) == LiveVals(a) + LiveVals(b)
  {
    MapAppend(a, b, C.RowVal());
    FilterAppend(Map(a, C.RowVal()), Map(b, C.RowVal()), C.Live());
  }

  lemma LiveValsSnoc(rows: seq<Row<Entry>>, n: nat, i: nat)
    requires n <= i < |rows|
    ensures LiveVals(rows[n..i + 1]) == LiveVals(rows[n..i]) + (if rows[i].val.deleted then [] else [rows[i].val])
  {
    assert rows[n..i + 1] == rows[n..i] + [rows[i]];
    LiveValsAppend(rows[n..i], [rows[i]]);
    assert Map([rows[i]], C.RowVal()) == [rows[i].val];
  }

  // ---- the loops ----

  /** Seek, then Next while the key has the prefix, collecting the live entries. */
  method ScanLive(rows: seq<Row<Entry>>, owner: Id) returns (result: seq<Entry>)
    ensures var n := Seek(rows, owner); result == LiveVals(rows[n..BlockEnd(rows, owner, n)])
  {
    result := [];
    var n := Seek(rows, owner);
    var i := n;
    ghost var m := BlockEnd(rows, owner, n);
    while i < |rows| && owner <= rows[i].key
      invariant n <= i <= m
      invariant result == LiveVals(rows[n..i])
    {
      LiveValsSnoc(rows, n, i);
      if !rows[i].val.deleted {
        result := result + [rows[i].val];
      }
      i := i + 1;
    }
  }

  method ListByPrefix(rows: seq<Row<Entry>>, owner: Id) returns (result: seq<Entry>)
    requires C.Valid(C.Db(rows, map[]))
    ensures result == C.ByOwner(C.Db(rows, map[]), owner)
  {
    result := ScanLive(rows, owner);
    ScanListsOwner(C.Db(rows, map[]), owner);
  }

  /** Cursor.Delete: the row after the deleted one takes its place. */
  method DeleteAt<T>(s: seq<T>, i: nat) returns (r: seq<T>)
    requires i < |s|
    ensures |r| == |s| - 1 && r[..i] == s[..i] && r[i..] == s[i..][1..]
  {
    r := s[..i] + s[i + 1..];
  }

  /** The cursor loop of deleteByPrefix: after Delete, Next moves to the successor of
      the deleted key, which is the row now at the cursor. */
  method CutBlock(start: seq<Row<Entry>>, owner: Id) returns (rows: seq<Row<Entry>>)
    ensures var n := Seek(start, owner); rows == start[..n] + DropBlock(start[n..], owner)
  {
    rows := start;
    var i := Seek(start, owner);
    while i < |rows| && owner <= rows[i].key
      invariant i <= |rows| && rows[..i] == start[..i]
      invariant DropBlock(rows[i..], owner) == DropBlock(start[i..], owner)
      decreases |rows|
    {
      assert rows[i..][0] == rows[i];
      rows := DeleteAt(rows, i);
    }
    assert i < |rows| ==> rows[i..][0] == rows[i];
    assert rows == rows[..i] + rows[i..];
  }

  method DeleteByPrefix(start: seq<Row<Entry>>, owner: Id) returns (rows: seq<Row<Entry>>)
    requires Sorted(start)
    ensures rows == Filter(start, LacksPrefix(owner))
  {
    rows := CutBlock(start, owner);
    DropIsSlice(start, owner, Seek(start, owner));
    ScanIsFilter(start, owner);
  }

  method AddAvailability(avail: Avail, file: Id, node: Id, now: int) returns (r: Avail)
    ensures r == C.AddAvail(avail, file, node, now)
  {
    var hints := if file in avail then avail[file] else [];
    var i := 0;
    while i < |hints| && hints[i].nodeID != node
      invariant 0 <= i <= C.FirstHint(hints, node)
    {
      i := i + 1;
    }
    if i < |hints| {
      hints := hints[i := hints[i].(seenAt := now)];
    } else {
      hints := hints + [C.OwnerHint(node, now)];
    }
    r := avail[file := hints];
  }

  /** `filtered := hints[:0]` appends into the slice being read. */
  method FilterInPlace(hints: array<OwnerHint>, node: Id) returns (n: nat)
    modifies hints
    ensures n <= hints.Length
    ensures hints[..n] == Filter(old(hints[..]), C.OtherNode(node))
  {
    n := 0;
    ghost var was := hints[..];
    for i := 0 to hints.Length
      invariant n <= i
      invariant hints[i..] == was[i..]
      invariant hints[..n] == Filter(was[..i], C.OtherNode(node))
    {
      assert was[..i + 1] == was[..i] + [was[i]];
      FilterAppend(was[..i], [was[i]], C.OtherNode(node));
      assert hints[i] == hints[i..][0] == was[i];
      assert hints[i + 1..] == hints[i..][1..] && was[i + 1..] == was[i..][1..];
      if hints[i].nodeID != node {
        ghost var before := hints[..n];
        hints[n] := hints[i];
        n := n + 1;
        assert hints[..n] == before + [was[i]];
      }
    }
    assert was[..hints.Length] == was;
  }

  method RemoveAvailability(avail: Avail, file: Id, node: Id) returns (r: Avail)
    ensures r == C.RemoveAvail(avail, file, node)
  {
    if file !in avail {
      return avail;
    }
    var stored := avail[file];
    var hints := new OwnerHint[|stored|](i requires 0 <= i < |stored| => stored[i]);
    assert hints[..] == stored;
    var n := FilterInPlace(hints, node);
    if n == 0 {
      assert hints[..n] == [];
      r := avail - {file};
    } else {
      r := avail[file := hints[..n]];
    }
  }

  function PathMatches(rows: seq<Row<Entry>>, path: string): seq<Entry> {
    Filter(LiveVals(rows), C.AtPath(path))
  }

  lemma PathMatchesAppend(a: seq<Row<Entry>>, b: seq<Row<Entry>>, path: string)
    ensures PathMatches(a + b, path) == PathMatches(a, path) + PathMatches(b, path)
  {
    LiveValsAppend(a, b);
    FilterAppend(LiveVals(a), LiveVals(b), C.AtPath(path));
  }

  lemma SliceSplit<T>(s: seq<T>, n: nat, i: nat, m: nat)
    requires n <= i < m <= |s|
    ensures s[n..i + 1] == s[n..i] + [s[i]] && s[n..m] == s[n..i + 1] + s[i + 1..m]
  {
  }

  /** No match up to row i: the next match is row i itself or comes later. */
  lemma PathMatchesNext(rows: seq<Row<Entry>>, n: nat, i: nat, m: nat, path: string)
    requires n <= i < m <= |rows| && PathMatches(rows[n..i], path) == []
    ensures PathMatches(rows[n..i + 1], path) == PathMatches([rows[i]], path)
    ensures PathMatches(rows[n..m], path) == PathMatches([rows[i]], path) + PathMatches(rows[i + 1..m], path)
  {
    SliceSplit(rows, n, i, m);
    PathMatchesAppend(rows[n..i], [rows[i]], path);
    PathMatchesAppend(rows[n..i + 1], rows[i + 1..m], path);
  }

  lemma PathMatchesSplit(rows: seq<Row<Entry>>, n: nat, i: nat, m: nat, path: string)
    requires n <= i < m <= |rows|
    requires PathMatches(rows[n..i], path) == []
    ensures var e := rows[i].val;
            if !e.deleted && e.localPath == path
            then C.FirstOrNone(PathMatches(rows[n..m], path)) == Some(e)
            else PathMatches(rows[n..i + 1], path) == []
  {
    PathMatchesNext(rows, n, i, m, path);
    PathMatchesOne(rows[i], path);
  }

  lemma PathMatchesOne(r: Row<Entry>, path: string)
    ensures PathMatches([r], path) == if !r.val.deleted && r.val.localPath == path then [r.val] else []
  {
    assert Map([r], C.RowVal()) == [r.val];
    assert LiveVals([r]) == if r.val.deleted then [] else [r.val];
  }

  method ScanForPath(rows: seq<Row<Entry>>, owner: Id, path: string) returns (found: Option<Entry>)
    ensures var n := Seek(rows, owner);
            found == C.FirstOrNone(PathMatches(rows[n..BlockEnd(rows, owner, n)], path))
  {
    var n := Seek(rows, owner);
    var i := n;
    ghost var m := BlockEnd(rows, owner, n);
    while i < |rows| && owner <= rows[i].key
      invariant n <= i <= m
      invariant PathMatches(rows[n..i], path) == []
    {
      var e := rows[i].val;
      PathMatchesSplit(rows, n, i, m, path);
      if !e.deleted && e.localPath == path {
        return Some(e);
      }
      i := i + 1;
    }
    found := None;
  }

  /** The first i entries of the batch are in. */
  ghost predicate Inserted(start: C.Db, peer: Id, batch: seq<Entry>, now: int, i: nat, db: C.Db)
    requires i <= |batch|
  {
    db == C.PutBatch(start, peer, batch[..i], now)
  }

  lemma PutBatchSnoc(start: C.Db, peer: Id, batch: seq<Entry>, now: int, i: nat)
    requires i < |batch|
    ensures C.PutBatch(start, peer, batch[..i + 1], now) == C.PutOne(C.PutBatch(start, peer, batch[..i], now), peer, batch[i], now)
  {
    assert batch[..i + 1][..i] == batch[..i];
  }

  /** One turn of the insert loop. */
  method InsertOne(ghost start: C.Db, peer: Id, batch: seq<Entry>, now: int, i: nat, db: C.Db) returns (r: C.Db)
    requires i < |batch| && Inserted(start, peer, batch, now, i, db)
    ensures Inserted(start, peer, batch, now, i + 1, r)
  {
    PutBatchSnoc(start, peer, batch, now, i);
    var e := batch[i].(owner := peer, updatedAt := now);
    var rows, av := Put(db.entries, C.CompositeKey(e.owner, e.fileID), e), db.avail;
    if !e.deleted {
      av := AddAvailability(av, e.fileID, peer, now);
    }
    r := C.Db(rows, av);
  }

  /** The insert loop of PutPeerEntries; an entry that cannot be encoded aborts it. */
  method InsertBatch(start: C.Db, peer: Id, batch: seq<Entry>, now: int) returns (r: Option<C.Db>)
    ensures r.Some? <==> C.BatchEncodable(batch)
    ensures r.Some? ==> r.value == C.PutBatch(start, peer, batch, now)
  {
    var db := start;
    for i := 0 to |batch|
      invariant Inserted(start, peer, batch, now, i, db)
      invariant forall j :: 0 <= j < i ==> C.Encodable(batch[j].modTime)
    {
      if !C.Encodable(batch[i].modTime) {
        return None;
      }
      db := InsertOne(start, peer, batch, now, i, db);
    }
    assert batch[..|batch|] == batch;
    r := Some(db);
  }

  class Store {
    const selfID: Id
    var entries: seq<Row<Entry>>
    var avail: Avail

    function State(): C.Db
      reads this
    {
      C.Db(entries, avail)
    }

    constructor (selfID: Id)
      ensures this.selfID == selfID && State() == C.EMPTY_DB && C.Valid(State())
    {
      this.selfID := selfID;
      entries, avail := [], map[];
    }

    method PutLocal(entry: Entry, now: int) returns (ok: bool)
      requires C.Valid(State())
      modifies this
      ensures ok == C.Encodable(entry.modTime)
      ensures State() == C.PutLocal(old(State()), selfID, entry, now) && C.Valid(State())
    {
      PutLocalLookup(State(), selfID, entry, now, selfID, selfID);
      ok := C.Encodable(entry.modTime);
      if ok {
        var e := entry.(owner := selfID, updatedAt := now, deleted := false);
        var av := AddAvailability(avail, e.fileID, selfID, now);
        entries, avail := Put(entries, C.CompositeKey(e.owner, e.fileID), e), av;
      }
    }

    method DeleteLocal(file: Id, now: int)
      requires C.Valid(State())
      modifies this
      ensures State() == C.DeleteLocal(old(State()), selfID, file, now) && C.Valid(State())
    {
      DeleteLocalLookup(State(), selfID, file, now, selfID, file);
      var raw := Get(entries, C.CompositeKey(selfID, file));
      if raw == None {
        return;
      }
      var e := raw.value.(deleted := true, updatedAt := now);
      var av := RemoveAvailability(avail, file, selfID);
      entries, avail := Put(entries, C.CompositeKey(e.owner, e.fileID), e), av;
    }

    method ListLocal() returns (result: seq<Entry>)
      requires C.Valid(State())
      ensures result == C.ByOwner(State(), selfID)
    {
      result := ListByPrefix(entries, selfID);
    }

    method LookupLocalByPath(path: string) returns (found: Option<Entry>)
      requires C.Valid(State())
      ensures found == C.LocalByPath(State(), selfID, path)
    {
      found := ScanForPath(entries, selfID, path);
      ScanListsOwner(State(), selfID);
    }

    method PutPeerEntries(peer: Id, batch: seq<Entry>, now: int) returns (ok: bool)
      requires C.Valid(State())
      modifies this
      ensures ok == C.BatchEncodable(batch)
      ensures State() == C.PutPeerEntries(old(State()), peer, batch, now) && C.Valid(State())
    {
      PutPeerLookup(State(), peer, batch, now, peer, peer);
      var cleared := DeleteByPrefix(entries, peer);
      var after := InsertBatch(C.Db(cleared, avail), peer, batch, now);
      ok := after.Some?;
      if ok {
        entries, avail := after.value.entries, after.value.avail;
      }
    }

    method RemovePeer(peer: Id)
      requires C.Valid(State())
      modifies this
      ensures State() == C.RemovePeer(old(State()), peer) && C.Valid(State())
    {
      RemovePeerLookup(State(), peer, peer, peer);
      var es := ListByPrefix(entries, peer);
      var av := avail;
      for i := 0 to |es|
        invariant av == C.RemoveAvailAll(avail, es[..i], peer)
        invariant State() == old(State())
      {
        assert es[..i + 1][..i] == es[..i];
        av := RemoveAvailability(av, es[i].fileID, peer);
      }
      assert es[..|es|] == es;
      var rows := DeleteByPrefix(entries, peer);
      entries, avail := rows, av;
    }

    method ListAll() returns (result: seq<Entry>)
      ensures result == C.All(State())
    {
      result := [];
      for i := 0 to |entries|
        invariant result == LiveVals(entries[..i])
      {
        LiveValsSnoc(entries, 0, i);
        if !entries[i].val.deleted {
          result := result + [entries[i].val];
        }
      }
      assert entries[..|entries|] == entries;
    }

    method ListByOwner(node: Id) returns (result: seq<Entry>)
      requires C.Valid(State())
      ensures result == Filter(C.All(State()), C.OwnedBy(node))
    {
      result := ListByPrefix(entries, node);
    }

    method ListForPeer(exclude: Id) returns (result: seq<Entry>)
      ensures result == Filter(C.All(State()), C.NotOwnedBy(exclude))
    {
      result := [];
      for i := 0 to |entries|
        invariant result == Filter(LiveVals(entries[..i]), C.NotOwnedBy(exclude))
      {
        var e := entries[i].val;
        LiveValsSnoc(entries, 0, i);
        FilterAppend(LiveVals(entries[..i]), if e.deleted then [] else [e], C.NotOwnedBy(exclude));
        if !e.deleted && e.owner != exclude {
          result := result + [e];
        }
      }
      assert entries[..|entries|] == entries;
    }
  }
}
