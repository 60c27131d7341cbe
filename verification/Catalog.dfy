/** The catalog store: entries keyed by (owner, file) and the availability index. */
module Catalog {
  import opened Basics
  import opened Bucket

  /** Times are nanoseconds since the Unix epoch. */
  const SECOND := 1_000_000_000

  datatype Entry = Entry(
    fileID: Id,
    name: string,
    size: int,
    modTime: int,
    owner: Id,
    localPath: string,
    deleted: bool,
    updatedAt: int)

  datatype OwnerHint = OwnerHint(nodeID: Id, seenAt: int)

  type Avail = map<Id, seq<OwnerHint>>

  /** The two buckets of catalog.db. */
  datatype Db = Db(entries: seq<Row<Entry>>, avail: Avail)

  const EMPTY_DB := Db([], map[])

  /** time.Time.MarshalJSON fails outside the years 0 to 9999. */
  predicate Encodable(t: int) {
    -62_167_219_200 * SECOND <= t < 253_402_300_800 * SECOND
  }

  function CompositeKey(owner: Id, file: Id): Bytes {
    owner + file
  }

  lemma KeyPrefix(o: Id, owner: Id, file: Id)
    ensures o <= CompositeKey(owner, file) <==> o == owner
  {
    assert CompositeKey(owner, file)[..32] == owner;
  }

  lemma KeyInjective(o: Id, f: Id, o': Id, f': Id)
    requires CompositeKey(o, f) == CompositeKey(o', f')
    ensures o == o' && f == f'
  {
    assert CompositeKey(o, f)[..32] == o && CompositeKey(o', f')[..32] == o';
    assert CompositeKey(o, f)[32..] == f && CompositeKey(o', f')[32..] == f';
  }

  ghost predicate KeysMatch(rows: seq<Row<Entry>>) {
    forall r :: r in rows ==> r.key == CompositeKey(r.val.owner, r.val.fileID)
  }

  ghost predicate Valid(db: Db) {
    Sorted(db.entries) && KeysMatch(db.entries)
  }

  /** GetEntry. */
  function Lookup(db: Db, owner: Id, file: Id): Option<Entry> {
    Get(db.entries, CompositeKey(owner, file))
  }

  predicate LiveAt(db: Db, owner: Id, file: Id) {
    var e := Lookup(db, owner, file);
    e.Some? && !e.value.deleted
  }

  // ---- the lists, defined by filtering the whole bucket ----

  function Live(): Entry -> bool { (e: Entry) => !e.deleted }
  function OwnedBy(o: Id): Entry -> bool { (e: Entry) => e.owner == o }
  function NotOwnedBy(o: Id): Entry -> bool { (e: Entry) => e.owner != o }
  function AtPath(path: string): Entry -> bool { (e: Entry) => e.localPath == path }
  function RowVal(): Row<Entry> -> Entry { (r: Row<Entry>) => r.val }

  function All(db: Db): seq<Entry> {
    Filter(Map(db.entries, RowVal()), Live())
  }

  function ByOwner(db: Db, o: Id): seq<Entry> {
    Filter(All(db), OwnedBy(o))
  }

  function ForPeer(db: Db, exclude: Id): seq<Entry> {
    Filter(All(db), NotOwnedBy(exclude))
  }

  function FirstOrNone<T>(s: seq<T>): Option<T> {
    if s == [] then None else Some(s[0])
  }

  function LocalByPath(db: Db, self: Id, path: string): Option<Entry> {
    FirstOrNone(Filter(ByOwner(db, self), AtPath(path)))
  }

  /** An entry is listed exactly when it is stored under its own key and is not a tombstone. */
  lemma AllMembers(db: Db, e: Entry)
    requires Valid(db)
    ensures e in All(db) <==> !e.deleted && Lookup(db, e.owner, e.fileID) == Some(e)
  {
    var vals := Map(db.entries, RowVal());
    var k := CompositeKey(e.owner, e.fileID);
    GetIsMembership(db.entries, k);
    if e in All(db) {
      var i :| 0 <= i < |All(db)| && All(db)[i] == e;
      var j := FilterOrigin(vals, Live(), i);
      assert db.entries[j] in db.entries;
      assert db.entries[j] == Row(k, e);
    }
    if !e.deleted && Row(k, e) in db.entries {
      var j :| 0 <= j < |db.entries| && db.entries[j] == Row(k, e);
      var i := FilterImage(vals, Live(), j);
    }
  }

  lemma LookupIsOwn(db: Db, o: Id, f: Id)
    requires Valid(db) && Lookup(db, o, f).Some?
    ensures var e := Lookup(db, o, f).value; e.owner == o && e.fileID == f
  {
    var k := CompositeKey(o, f);
    GetIsMembership(db.entries, k);
    var e := Lookup(db, o, f).value;
    assert Row(k, e) in db.entries;
    KeyInjective(o, f, e.owner, e.fileID);
  }

  /** ListForPeer and ListByOwner split ListAll between them. */
  lemma ListsPartition(db: Db, o: Id)
    ensures multiset(ByOwner(db, o)) + multiset(ForPeer(db, o)) == multiset(All(db))
  {
    FilterPartition(All(db), OwnedBy(o), NotOwnedBy(o));
  }

  // ---- the availability index ----

  function HintsOf(avail: Avail, f: Id): seq<OwnerHint> {
    if f in avail then avail[f] else []
  }

  function FirstHint(hints: seq<OwnerHint>, node: Id): (n: nat)
    ensures n <= |hints|
    ensures n < |hints| ==> hints[n].nodeID == node
    ensures forall i :: 0 <= i < n ==> hints[i].nodeID != node
  {
    if hints == [] || hints[0].nodeID == node then 0 else 1 + FirstHint(hints[1..], node)
  }

  function AddHint(hints: seq<OwnerHint>, node: Id, now: int): seq<OwnerHint> {
    var i := FirstHint(hints, node);
    if i < |hints| then hints[i := OwnerHint(node, now)] else hints + [OwnerHint(node, now)]
  }

  function OtherNode(node: Id): OwnerHint -> bool { (h: OwnerHint) => h.nodeID != node }

  function AddAvail(avail: Avail, f: Id, node: Id, now: int): Avail {
    avail[f := AddHint(HintsOf(avail, f), node, now)]
  }

  function RemoveAvail(avail: Avail, f: Id, node: Id): Avail {
    if f !in avail then avail
    else
      var kept := Filter(avail[f], OtherNode(node));
      if kept == [] then avail - {f} else avail[f := kept]
  }

  function RemoveAvailAll(avail: Avail, es: seq<Entry>, node: Id): Avail {
    if es == [] then avail
    else RemoveAvail(RemoveAvailAll(avail, es[..|es| - 1], node), es[|es| - 1].fileID, node)
  }

  // ---- the transactions ----

  function PutLocal(db: Db, self: Id, e: Entry, now: int): Db {
    if !Encodable(e.modTime) then db
    else
      Db(Put(db.entries, CompositeKey(self, e.fileID), e.(owner := self, updatedAt := now, deleted := false)),
         AddAvail(db.avail, e.fileID, self, now))
  }

  function DeleteLocal(db: Db, self: Id, f: Id, now: int): Db {
    match Lookup(db, self, f)
    case None => db
    case Some(e) =>
      Db(Put(db.entries, CompositeKey(e.owner, e.fileID), e.(deleted := true, updatedAt := now)),
         RemoveAvail(db.avail, f, self))
  }

  function Stamp(e: Entry, peer: Id, now: int): Entry {
    e.(owner := peer, updatedAt := now)
  }

  function PutOne(db: Db, peer: Id, e: Entry, now: int): Db {
    Db(Put(db.entries, CompositeKey(peer, e.fileID), Stamp(e, peer, now)),
       if e.deleted then db.avail else AddAvail(db.avail, e.fileID, peer, now))
  }

  function PutBatch(db: Db, peer: Id, batch: seq<Entry>, now: int): Db {
    if batch == [] then db
    else PutOne(PutBatch(db, peer, batch[..|batch| - 1], now), peer, batch[|batch| - 1], now)
  }

  function ClearPeer(db: Db, peer: Id): Db {
    db.(entries := Filter(db.entries, LacksPrefix(peer)))
  }

  predicate BatchEncodable(batch: seq<Entry>) {
    forall i :: 0 <= i < |batch| ==> Encodable(batch[i].modTime)
  }

  function PutPeerEntries(db: Db, peer: Id, batch: seq<Entry>, now: int): Db {
    if BatchEncodable(batch) then PutBatch(ClearPeer(db, peer), peer, batch, now) else db
  }

  function RemovePeer(db: Db, peer: Id): Db {
    ClearPeer(db, peer).(avail := RemoveAvailAll(db.avail, ByOwner(db, peer), peer))
  }
}
