/** The watcher keeps two indexes of the shared folder in step: the catalog's live local
    entries and the in-memory map from hash to path. */
module Watcher {
  import opened Basics
  import opened Bucket
  import opened Catalog
  import opened CatalogLaws
  import opened Paths
  import opened LocalFiles
  import CatalogStore

  datatype View = View(db: Db, index: map<Id, string>)

  function EntryFor(id: Id, path: string, size: int, modTime: int): Entry {
    Entry(id, Base(path), size, modTime, id, path, false, 0)
  }

  /** indexFile on a regular file: the catalog hashes the file, and then LocalIndex.Add
      hashes it again; `second` is what it finds, if the file is still there. */
  function AfterIndex(v: View, self: Id, hash: Bytes -> Id, path: string, first: Bytes, second: Option<Bytes>,
                     modTime: int, now: int): View {
    if !Encodable(modTime) then v
    else
      View(PutLocal(v.db, self, EntryFor(hash(first), path, |first|, modTime), now),
           if second.Some? then v.index[hash(second.value) := path] else v.index)
  }

  function AfterRemove(v: View, self: Id, path: string, now: int): View {
    match LocalByPath(v.db, self, path)
    case None => v
    case Some(e) => View(DeleteLocal(v.db, self, e.fileID, now), v.index - {e.fileID})
  }

  /** File f is live in the catalog at the given path. */
  predicate LiveAs(db: Db, self: Id, f: Id, path: string) {
    LiveAt(db, self, f) && Lookup(db, self, f).value.localPath == path
  }

  /** The map is exactly hash -> path of the live local entries. */
  ghost predicate Agree(v: View, self: Id) {
    forall f: Id, p: string :: (f in v.index && v.index[f] == p) <==> LiveAs(v.db, self, f, p)
  }

  lemma {:induction false} FirstOfFilter(s: seq<Entry>, keep: Entry -> bool)
    ensures var r := FirstOrNone(Filter(s, keep));
            && (r.Some? ==> r.value in s && keep(r.value))
            && (r.None? ==> forall i :: 0 <= i < |s| ==> !keep(s[i]))
  {
    if s != [] && !keep(s[0]) {
      FirstOfFilter(s[1..], keep);
      if Filter(s, keep) == [] {
        forall i | 0 <= i < |s|
          ensures !keep(s[i])
        {
          if i > 0 { assert s[i] == s[1..][i - 1]; }
        }
      }
    }
  }

  lemma OwnedLive(db: Db, self: Id, e: Entry)
    requires Valid(db)
    ensures e in ByOwner(db, self) <==> e.owner == self && LiveAt(db, self, e.fileID) && Lookup(db, self, e.fileID) == Some(e)
  {
    AllMembers(db, e);
    if e in ByOwner(db, self) {
      var i :| 0 <= i < |ByOwner(db, self)| && ByOwner(db, self)[i] == e;
      var j := FilterOrigin(All(db), OwnedBy(self), i);
    }
    if e in All(db) && e.owner == self {
      var j :| 0 <= j < |All(db)| && All(db)[j] == e;
      var i := FilterImage(All(db), OwnedBy(self), j);
    }
  }

  /** LookupLocalByPath finds a live local entry at the path if there is one. */
  lemma LookupByPath(db: Db, self: Id, path: string)
    requires Valid(db)
    ensures var r := LocalByPath(db, self, path);
            && (r.Some? ==> LiveAs(db, self, r.value.fileID, path) && Lookup(db, self, r.value.fileID) == r)
            && (r.None? ==> forall f: Id :: !LiveAs(db, self, f, path))
  {
    var r := LocalByPath(db, self, path);
    var es := ByOwner(db, self);
    FirstOfFilter(es, AtPath(path));
    if r.Some? {
      OwnedLive(db, self, r.value);
    } else {
      forall f: Id | LiveAt(db, self, f)
        ensures Lookup(db, self, f).value.localPath != path
      {
        LookupIsOwn(db, self, f);
        var e := Lookup(db, self, f).value;
        OwnedLive(db, self, e);
        var i :| 0 <= i < |es| && es[i] == e;
        assert !AtPath(path)(es[i]);
      }
    }
  }

  lemma PutLive(db: Db, self: Id, e: Entry, now: int, f: Id, p: string)
    requires Valid(db) && Encodable(e.modTime)
    ensures Valid(PutLocal(db, self, e, now))
    ensures LiveAs(PutLocal(db, self, e, now), self, f, p) <==> if f == e.fileID then p == e.localPath else LiveAs(db, self, f, p)
  {
    PutLocalLookup(db, self, e, now, self, f);
  }

  lemma DeleteLive(db: Db, self: Id, g: Id, now: int, f: Id, p: string)
    requires Valid(db)
    ensures Valid(DeleteLocal(db, self, g, now))
    ensures LiveAs(DeleteLocal(db, self, g, now), self, f, p) <==> f != g && LiveAs(db, self, f, p)
  {
    DeleteLocalLookup(db, self, g, now, self, f);
  }

  /** Removing a file takes the same entry out of both indexes. */
  lemma RemoveKeepsAgreement(v: View, self: Id, path: string, now: int)
    requires Valid(v.db) && Agree(v, self)
    ensures Valid(AfterRemove(v, self, path, now).db) && Agree(AfterRemove(v, self, path, now), self)
  {
    var v' := AfterRemove(v, self, path, now);
    var found := LocalByPath(v.db, self, path);
    if found.Some? {
      forall f: Id, p: string
        ensures Valid(v'.db)
        ensures (f in v'.index && v'.index[f] == p) <==> LiveAs(v'.db, self, f, p)
      {
        DeleteLive(v.db, self, found.value.fileID, now, f, p);
      }
      DeleteLive(v.db, self, found.value.fileID, now, self, path);
    }
  }

  /** The file did not change between the two hashes, or the change makes no difference. */
  ghost predicate Stable(v: View, hash: Bytes -> Id, path: string, first: Bytes, second: Option<Bytes>) {
    || (second.Some? && hash(second.value) == hash(first))
    || (At(v, hash(first), path) && (second.Some? ==> At(v, hash(second.value), path)))
  }

  predicate At(v: View, f: Id, path: string) {
    f in v.index && v.index[f] == path
  }

  /** Indexing keeps the two in agreement if and only if the second hash finds what the
      first one did, or both were indexed at the path already. */
  lemma IndexAgreement(v: View, self: Id, hash: Bytes -> Id, path: string, first: Bytes, second: Option<Bytes>,
                       modTime: int, now: int)
    requires Valid(v.db) && Agree(v, self)
    ensures var v' := AfterIndex(v, self, hash, path, first, second, modTime, now);
            && Valid(v'.db)
            && (Agree(v', self) <==> (Encodable(modTime) ==> Stable(v, hash, path, first, second)))
  {
    var v' := AfterIndex(v, self, hash, path, first, second, modTime, now);
    if Encodable(modTime) {
      var e := EntryFor(hash(first), path, |first|, modTime);
      PutLive(v.db, self, e, now, self, path);
      forall f: Id, p: string
        ensures LiveAs(v'.db, self, f, p) <==> if f == hash(first) then p == path else At(v, f, p)
      {
        PutLive(v.db, self, e, now, f, p);
        assert At(v, f, p) <==> LiveAs(v.db, self, f, p);
      }
      IffStable(v, v', self, hash, path, first, second);
    }
  }

  lemma IffStable(v: View, v': View, self: Id, hash: Bytes -> Id, path: string, first: Bytes, second: Option<Bytes>)
    requires forall f: Id, p: string :: LiveAs(v'.db, self, f, p) <==> if f == hash(first) then p == path else At(v, f, p)
    requires v'.index == if second.Some? then v.index[hash(second.value) := path] else v.index
    ensures Agree(v', self) <==> Stable(v, hash, path, first, second)
  {
    var g := hash(first);
    if Agree(v', self) {
      assert LiveAs(v'.db, self, g, path);
      if second.Some? {
        var h := hash(second.value);
        assert At(v', h, path) && LiveAs(v'.db, self, h, path);
      }
    }
    if Stable(v, hash, path, first, second) {
      forall f: Id, p: string
        ensures (f in v'.index && v'.index[f] == p) <==> LiveAs(v'.db, self, f, p)
      {
        assert LiveAs(v'.db, self, f, p) <==> if f == g then p == path else At(v, f, p);
      }
    }
  }

  /** What indexing stores: the size of the hashed content, the path, the last part of
      the path as the name, and the times, live under this node. */
  lemma IndexedEntry(v: View, self: Id, hash: Bytes -> Id, path: string, first: Bytes, second: Option<Bytes>,
                     modTime: int, now: int)
    requires Valid(v.db) && Encodable(modTime)
    ensures var found := Lookup(AfterIndex(v, self, hash, path, first, second, modTime, now).db, self, hash(first));
            && found.Some? && Described(found.value, path, |first|, modTime)
            && found.value.fileID == hash(first) && found.value.owner == self && found.value.updatedAt == now
  {
    PutLocalLookup(v.db, self, EntryFor(hash(first), path, |first|, modTime), now, self, hash(first));
    BaseIsLastPart(path);
  }

  ghost predicate Described(e: Entry, path: string, size: int, modTime: int) {
    && e.size == size && e.localPath == path && e.modTime == modTime && !e.deleted
    && (forall n :: LastPart(path, n) ==> e.name == n)
  }

  // ---- which entry is found ----

  /** LookupLocalByPath finds the first row in key order. */
  lemma {:induction false} FirstRow(rows: seq<Row<Entry>>, self: Id, path: string, j: nat) returns (i: nat)
    requires j < |rows|
    requires !rows[j].val.deleted && rows[j].val.owner == self && rows[j].val.localPath == path
    ensures i <= j
    ensures LocalByPath(Db(rows, map[]), self, path) == Some(rows[i].val)
  {
    var e, rest := rows[0].val, rows[1..];
    assert Map(rows, RowVal()) == [e] + Map(rest, RowVal());
    var all, all' := All(Db(rest, map[])), All(Db(rows, map[]));
    assert all' == if e.deleted then all else [e] + all;
    var own, own' := Filter(all, OwnedBy(self)), Filter(all', OwnedBy(self));
    assert own' == if !e.deleted && e.owner == self then [e] + own else own;
    if !e.deleted && e.owner == self && e.localPath == path {
      i := 0;
    } else {
      i := FirstRow(rest, self, path, j - 1);
      i := i + 1;
    }
  }

  lemma {:induction false} LessAfterPrefix(o: Bytes, f: Bytes, g: Bytes)
    ensures Less(o + f, o + g) <==> Less(f, g)
  {
    if o == [] {
      assert o + f == f && o + g == g;
    } else {
      LessAfterPrefix(o[1..], f, g);
      assert (o + f)[1..] == o[1..] + f && (o + g)[1..] == o[1..] + g;
    }
  }

  /** Of several entries at one path the one with the lowest hash is found. */
  lemma FindsLowest(db: Db, self: Id, p: string, f: Id)
    requires Valid(db) && LiveAs(db, self, f, p)
    ensures var found := LocalByPath(db, self, p); found.Some? && !Less(f, found.value.fileID)
  {
    var rows := db.entries;
    var k := CompositeKey(self, f);
    LookupIsOwn(db, self, f);
    GetIsMembership(rows, k);
    var e := Lookup(db, self, f).value;
    assert Row(k, e) in rows;
    var j :| 0 <= j < |rows| && rows[j] == Row(k, e);
    var i := FirstRow(rows, self, p, j);
    LookupByPath(db, self, p);
    var g := rows[i].val;
    assert LocalByPath(db, self, p) == Some(g);
    LookupIsOwn(db, self, g.fileID);
    assert rows[i] in rows && rows[i].key == CompositeKey(self, g.fileID);
    if i == j {
      LessIrreflexive(f);
    } else {
      LessAfterPrefix(self, g.fileID, f);
      LessAsymmetric(g.fileID, f);
    }
  }

  // ---- the code ----

  class FolderWatcher {
    const catalog: CatalogStore.Store
    const index: LocalIndex

    function Abs(): View
      reads this, catalog, index
    {
      View(catalog.State(), index.index)
    }

    constructor (catalog: CatalogStore.Store, index: LocalIndex)
      ensures this.catalog == catalog && this.index == index
    {
      this.catalog, this.index := catalog, index;
    }

    /** `at` is the file when it is hashed for the catalog, `later` when it is added to
        the index; either may find it gone. The result says whether onChange runs. */
    method IndexFile(hash: Bytes -> Id, path: string, at: Option<Bytes>, later: Option<Bytes>, modTime: int, now: int)
      returns (changed: bool)
      requires Valid(catalog.State())
      modifies catalog, index
      ensures Valid(catalog.State())
      ensures at.None? ==> Abs() == old(Abs())
      ensures at.Some? ==> Abs() == AfterIndex(old(Abs()), catalog.selfID, hash, path, at.value, later, modTime, now)
      ensures changed <==> at.Some? && Encodable(modTime) && later.Some?
      ensures at.Some? && Encodable(modTime) ==>
                var found := Lookup(catalog.State(), catalog.selfID, hash(at.value));
                found.Some? && Described(found.value, path, |at.value|, modTime)
    {
      if at.None? {
        return false;
      }
      if Encodable(modTime) {
        IndexedEntry(Abs(), catalog.selfID, hash, path, at.value, later, modTime, now);
      }
      var id := hash(at.value);
      var ok := catalog.PutLocal(EntryFor(id, path, |at.value|, modTime), now);
      if !ok {
        return false;
      }
      changed := index.Add(hash, path, later);
    }

    method HandleRemove(path: string, now: int) returns (changed: bool)
      requires Valid(catalog.State())
      modifies catalog, index
      ensures Valid(catalog.State())
      ensures Abs() == AfterRemove(old(Abs()), catalog.selfID, path, now)
      ensures changed <==> LocalByPath(old(catalog.State()), catalog.selfID, path).Some?
    {
      var entry := catalog.LookupLocalByPath(path);
      if entry.None? {
        return false;
      }
      catalog.DeleteLocal(entry.value.fileID, now);
      index.Remove(entry.value.fileID);
      changed := true;
    }
  }
}
