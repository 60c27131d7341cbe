/** What each catalog transaction does to every single (owner, file) pair. */
module CatalogLaws {
  import opened Basics
  import opened Bucket
  import opened Catalog

  /** The last entry of a batch for file f: later entries overwrite earlier ones. */
  function LastListed(batch: seq<Entry>, f: Id): Option<Entry> {
    if batch == [] then None
    else if batch[|batch| - 1].fileID == f then Some(batch[|batch| - 1])
    else LastListed(batch[..|batch| - 1], f)
  }

  /** LastListed is the entry at the greatest index that names f. */
  lemma {:induction false} LastListedIsLast(batch: seq<Entry>, f: Id)
    ensures LastListed(batch, f) == None <==> forall i :: 0 <= i < |batch| ==> batch[i].fileID != f
    ensures LastListed(batch, f).Some? ==>
              exists i :: 0 <= i < |batch| && batch[i] == LastListed(batch, f).value && batch[i].fileID == f
                          && forall j :: i < j < |batch| ==> batch[j].fileID != f
  {
    if batch != [] {
      var n := |batch| - 1;
      if batch[n].fileID != f {
        LastListedIsLast(batch[..n], f);
      }
    }
  }

  function StampAt(o: Option<Entry>, peer: Id, now: int): Option<Entry> {
    if o.Some? then Some(Stamp(o.value, peer, now)) else None
  }

  lemma PutKeepsKeys(rows: seq<Row<Entry>>, e: Entry)
    requires Sorted(rows) && KeysMatch(rows)
    ensures Sorted(Put(rows, CompositeKey(e.owner, e.fileID), e))
    ensures KeysMatch(Put(rows, CompositeKey(e.owner, e.fileID), e))
  {
    PutSorted(rows, CompositeKey(e.owner, e.fileID), e);
    PutMembers(rows, CompositeKey(e.owner, e.fileID), e);
  }

  lemma PutLookup(rows: seq<Row<Entry>>, e: Entry, o: Id, f: Id)
    requires Sorted(rows)
    ensures Get(Put(rows, CompositeKey(e.owner, e.fileID), e), CompositeKey(o, f))
         == if o == e.owner && f == e.fileID then Some(e) else Get(rows, CompositeKey(o, f))
  {
    GetPut(rows, CompositeKey(e.owner, e.fileID), e, CompositeKey(o, f));
    if CompositeKey(o, f) == CompositeKey(e.owner, e.fileID) {
      KeyInjective(o, f, e.owner, e.fileID);
    }
  }

  lemma PutLocalLookup(db: Db, self: Id, e: Entry, now: int, o: Id, f: Id)
    requires Valid(db)
    ensures Valid(PutLocal(db, self, e, now))
    ensures Lookup(PutLocal(db, self, e, now), o, f)
         == if Encodable(e.modTime) && o == self && f == e.fileID
            then Some(e.(owner := self, updatedAt := now, deleted := false))
            else Lookup(db, o, f)
  {
    var e' := e.(owner := self, updatedAt := now, deleted := false);
    PutKeepsKeys(db.entries, e');
    PutLookup(db.entries, e', o, f);
  }

  lemma DeleteLocalLookup(db: Db, self: Id, g: Id, now: int, o: Id, f: Id)
    requires Valid(db)
    ensures Valid(DeleteLocal(db, self, g, now))
    ensures Lookup(DeleteLocal(db, self, g, now), o, f)
         == if o == self && f == g && Lookup(db, o, f).Some?
            then Some(Lookup(db, o, f).value.(deleted := true, updatedAt := now))
            else Lookup(db, o, f)
  {
    if Lookup(db, self, g).Some? {
      LookupIsOwn(db, self, g);
      var e := Lookup(db, self, g).value.(deleted := true, updatedAt := now);
      PutKeepsKeys(db.entries, e);
      PutLookup(db.entries, e, o, f);
    }
  }

  /** Deleting by prefix removes one owner's rows and nothing else. */
  lemma ClearPeerLookup(db: Db, peer: Id, o: Id, f: Id)
    requires Valid(db)
    ensures Valid(ClearPeer(db, peer))
    ensures Lookup(ClearPeer(db, peer), o, f) == if o == peer then None else Lookup(db, o, f)
  {
    var k := CompositeKey(o, f);
    var rows := Filter(db.entries, LacksPrefix(peer));
    FilterSorted(db.entries, LacksPrefix(peer));
    forall r | r in rows
      ensures r in db.entries && LacksPrefix<Entry>(peer)(r)
    {
      var i :| 0 <= i < |rows| && rows[i] == r;
      var j := FilterOrigin(db.entries, LacksPrefix<Entry>(peer), i);
    }
    FilterMembers(db.entries, LacksPrefix<Entry>(peer));
    GetIsMembership(db.entries, k);
    GetIsMembership(rows, k);
    KeyPrefix(peer, o, f);
    if Lookup(db, o, f).Some? && o != peer {
      var r := Row(k, Lookup(db, o, f).value);
      assert r in db.entries && LacksPrefix<Entry>(peer)(r);
      assert r in rows;
    }
    var got := Get(rows, k);
    if got.Some? {
      assert Row(k, got.value) in rows;
    }
  }

  lemma {:induction false} PutBatchLookup(db: Db, peer: Id, batch: seq<Entry>, now: int, o: Id, f: Id)
    requires Valid(db)
    ensures Valid(PutBatch(db, peer, batch, now))
    ensures Lookup(PutBatch(db, peer, batch, now), o, f)
         == if o == peer && LastListed(batch, f).Some?
            then StampAt(LastListed(batch, f), peer, now)
            else Lookup(db, o, f)
  {
    if batch != [] {
      var n := |batch| - 1;
      PutBatchLookup(db, peer, batch[..n], now, o, f);
      var mid := PutBatch(db, peer, batch[..n], now);
      var e := Stamp(batch[n], peer, now);
      PutKeepsKeys(mid.entries, e);
      PutLookup(mid.entries, e, o, f);
    }
  }

  /** Replace-all: afterwards the peer's entries are exactly the last listing of each
      file in the batch, whatever was stored for the peer before, and no other owner
      changes. A batch with one unencodable time is rejected as a whole. */
  lemma PutPeerLookup(db: Db, peer: Id, batch: seq<Entry>, now: int, o: Id, f: Id)
    requires Valid(db)
    ensures Valid(PutPeerEntries(db, peer, batch, now))
    ensures Lookup(PutPeerEntries(db, peer, batch, now), o, f)
         == if o == peer && BatchEncodable(batch) then StampAt(LastListed(batch, f), peer, now)
            else Lookup(db, o, f)
  {
    ClearPeerLookup(db, peer, o, f);
    PutBatchLookup(ClearPeer(db, peer), peer, batch, now, o, f);
  }

  lemma RemovePeerLookup(db: Db, peer: Id, o: Id, f: Id)
    requires Valid(db)
    ensures Valid(RemovePeer(db, peer))
    ensures Lookup(RemovePeer(db, peer), o, f) == if o == peer then None else Lookup(db, o, f)
  {
    ClearPeerLookup(db, peer, o, f);
  }

  // ---- hints ----

  ghost predicate Names(hints: seq<OwnerHint>, node: Id) {
    exists i :: 0 <= i < |hints| && hints[i].nodeID == node
  }

  ghost predicate Hinted(avail: Avail, f: Id, node: Id) {
    Names(HintsOf(avail, f), node)
  }

  ghost predicate DistinctNodes(hints: seq<OwnerHint>) {
    forall i, j :: 0 <= i < j < |hints| ==> hints[i].nodeID != hints[j].nodeID
  }

  /** No hint list is stored empty and none names a node twice. */
  ghost predicate IndexOk(avail: Avail) {
    forall f :: f in avail ==> avail[f] != [] && DistinctNodes(avail[f])
  }

  lemma AddHintNames(hints: seq<OwnerHint>, node: Id, now: int, n: Id)
    ensures Names(AddHint(hints, node, now), n) <==> Names(hints, n) || n == node
  {
    var new_ := AddHint(hints, node, now);
    assert new_[FirstHint(hints, node)].nodeID == node;
    if i :| 0 <= i < |hints| && hints[i].nodeID == n {
      assert new_[i].nodeID == n;
    }
    if i :| 0 <= i < |new_| && new_[i].nodeID == n && n != node {
      assert hints[i].nodeID == n;
    }
  }

  lemma AddAvailHints(avail: Avail, g: Id, node: Id, now: int, f: Id, n: Id)
    ensures Hinted(AddAvail(avail, g, node, now), f, n) <==> Hinted(avail, f, n) || (f == g && n == node)
  {
    AddHintNames(HintsOf(avail, g), node, now, n);
  }

  lemma AddAvailOk(avail: Avail, g: Id, node: Id, now: int)
    requires IndexOk(avail)
    ensures IndexOk(AddAvail(avail, g, node, now))
  {
  }

  lemma RemoveHintNames(hints: seq<OwnerHint>, node: Id, n: Id)
    ensures Names(Filter(hints, OtherNode(node)), n) <==> Names(hints, n) && n != node
  {
    var kept := Filter(hints, OtherNode(node));
    FilterMembers(hints, OtherNode(node));
    if i :| 0 <= i < |hints| && hints[i].nodeID == n && n != node {
      assert hints[i] in kept;
    }
    if i :| 0 <= i < |kept| && kept[i].nodeID == n {
      var j := FilterOrigin(hints, OtherNode(node), i);
    }
  }

  lemma RemoveAvailHints(avail: Avail, g: Id, node: Id, f: Id, n: Id)
    ensures Hinted(RemoveAvail(avail, g, node), f, n) <==> Hinted(avail, f, n) && !(f == g && n == node)
  {
    RemoveHintNames(HintsOf(avail, g), node, n);
  }

  lemma {:induction false} FilterDistinct(hints: seq<OwnerHint>, keep: OwnerHint -> bool)
    requires DistinctNodes(hints)
    ensures DistinctNodes(Filter(hints, keep))
  {
    if hints != [] {
      var rest := Filter(hints[1..], keep);
      FilterDistinct(hints[1..], keep);
      forall i | 0 <= i < |rest|
        ensures rest[i].nodeID != hints[0].nodeID
      {
        var j := FilterOrigin(hints[1..], keep, i);
      }
    }
  }

  lemma RemoveAvailOk(avail: Avail, g: Id, node: Id)
    requires IndexOk(avail)
    ensures IndexOk(RemoveAvail(avail, g, node))
  {
    if g in avail {
      FilterDistinct(avail[g], OtherNode(node));
    }
  }

  lemma {:induction false} RemoveAllHints(avail: Avail, es: seq<Entry>, node: Id, f: Id, n: Id)
    ensures IndexOk(avail) ==> IndexOk(RemoveAvailAll(avail, es, node))
    ensures Hinted(RemoveAvailAll(avail, es, node), f, n)
       <==> Hinted(avail, f, n) && !(n == node && exists i :: 0 <= i < |es| && es[i].fileID == f)
  {
    if es != [] {
      var k := |es| - 1;
      var mid := RemoveAvailAll(avail, es[..k], node);
      RemoveAllHints(avail, es[..k], node, f, n);
      RemoveAvailHints(mid, es[k].fileID, node, f, n);
      if IndexOk(avail) {
        RemoveAvailOk(mid, es[k].fileID, node);
      }
      assert forall i :: 0 <= i < k ==> es[..k][i] == es[i];
    }
  }

  ghost predicate ListedLive(batch: seq<Entry>, f: Id) {
    exists i :: 0 <= i < |batch| && batch[i].fileID == f && !batch[i].deleted
  }

  lemma ListedLiveSnoc(batch: seq<Entry>, f: Id)
    requires batch != []
    ensures var k := |batch| - 1;
            ListedLive(batch, f) <==> ListedLive(batch[..k], f) || (batch[k].fileID == f && !batch[k].deleted)
  {
    var k := |batch| - 1;
    if i :| 0 <= i < k && batch[i].fileID == f && !batch[i].deleted {
      assert batch[..k][i] == batch[i];
    }
    if i :| 0 <= i < k && batch[..k][i].fileID == f && !batch[..k][i].deleted {
      assert batch[i] == batch[..k][i];
    }
  }

  lemma {:induction false} PutBatchHints(db: Db, peer: Id, batch: seq<Entry>, now: int, f: Id, n: Id)
    ensures IndexOk(db.avail) ==> IndexOk(PutBatch(db, peer, batch, now).avail)
    ensures Hinted(PutBatch(db, peer, batch, now).avail, f, n)
       <==> Hinted(db.avail, f, n) || (n == peer && ListedLive(batch, f))
  {
    if batch != [] {
      var k := |batch| - 1;
      var mid := PutBatch(db, peer, batch[..k], now);
      PutBatchHints(db, peer, batch[..k], now, f, n);
      AddAvailHints(mid.avail, batch[k].fileID, peer, now, f, n);
      if IndexOk(mid.avail) {
        AddAvailOk(mid.avail, batch[k].fileID, peer, now);
      }
      ListedLiveSnoc(batch, f);
    }
  }

  /** RemovePeer withdraws the peer's hint for exactly the files that were live. */
  lemma RemovePeerHints(db: Db, peer: Id, f: Id, n: Id)
    requires Valid(db)
    ensures IndexOk(db.avail) ==> IndexOk(RemovePeer(db, peer).avail)
    ensures Hinted(RemovePeer(db, peer).avail, f, n)
       <==> Hinted(db.avail, f, n) && !(n == peer && LiveAt(db, peer, f))
  {
    var es := ByOwner(db, peer);
    RemoveAllHints(db.avail, es, peer, f, n);
    FilterMembers(All(db), OwnedBy(peer));
    if LiveAt(db, peer, f) {
      LookupIsOwn(db, peer, f);
      var e := Lookup(db, peer, f).value;
      AllMembers(db, e);
      assert e in All(db) && OwnedBy(peer)(e);
      assert e in es;
      var i :| 0 <= i < |es| && es[i] == e;
      assert es[i].fileID == f;
    }
    if i :| 0 <= i < |es| && es[i].fileID == f {
      var j := FilterOrigin(All(db), OwnedBy(peer), i);
      AllMembers(db, es[i]);
    }
  }
}
