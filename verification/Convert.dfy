/** Catalog entries on the wire. */
module Convert {
  import opened Basics
  import opened Catalog

  datatype CatalogFile = CatalogFile(
    fileId: Bytes,
    name: string,
    size: int,
    modTimeUnix: int,
    ownerNodeId: Bytes,
    deleted: bool)

  /** time.Time.Unix: whole seconds, rounded down. */
  function Unix(t: int): int { t / SECOND }
  function FromUnix(s: int): int { s * SECOND }

  function EntryToProto(e: Entry): CatalogFile {
    CatalogFile(e.fileID, e.name, e.size, Unix(e.modTime), e.owner, e.deleted)
  }

  function ToProto(): Entry -> CatalogFile { (e: Entry) => EntryToProto(e) }

  predicate WellFormed(f: CatalogFile) {
    |f.fileId| == 32 && |f.ownerNodeId| == 32
  }

  function ProtoToEntry(f: CatalogFile): (r: Option<Entry>) {
    if WellFormed(f) then
      Some(Entry(f.fileId, f.name, f.size, FromUnix(f.modTimeUnix), f.ownerNodeId, "", f.deleted, 0))
    else None
  }

  /** What survives the wire: everything but the local path, the update time and the
      fraction of the second of the modification time. */
  function Carried(e: Entry): Entry {
    e.(modTime := FromUnix(Unix(e.modTime)), localPath := "", updatedAt := 0)
  }

  function Carry(): Entry -> Entry { (e: Entry) => Carried(e) }

  /** Truncation to seconds is idempotent, loses less than a second and stays encodable. */
  lemma TruncateTime(t: int)
    ensures Unix(FromUnix(Unix(t))) == Unix(t)
    ensures FromUnix(Unix(t)) <= t < FromUnix(Unix(t)) + SECOND
    ensures Encodable(t) ==> Encodable(FromUnix(Unix(t)))
  {
  }

  method EntriesToProto(entries: seq<Entry>) returns (files: seq<CatalogFile>)
    ensures files == Map(entries, ToProto())
  {
    files := [];
    for i := 0 to |entries|
      invariant files == Map(entries[..i], ToProto())
    {
      assert entries[..i + 1] == entries[..i] + [entries[i]];
      MapAppend(entries[..i], [entries[i]], ToProto());
      files := files + [EntryToProto(entries[i])];
    }
    assert entries[..|entries|] == entries;
  }

  /** The entries an offer is read as: malformed files are skipped. */
  function Accepted(files: seq<CatalogFile>): seq<Entry> {
    if files == [] then []
    else
      var last := ProtoToEntry(files[|files| - 1]);
      Accepted(files[..|files| - 1]) + if last.Some? then [last.value] else []
  }

  /** Reading back a sent list gives the carried entries, in order. */
  lemma {:induction false} AcceptedOfSent(es: seq<Entry>)
    ensures Accepted(Map(es, ToProto())) == Map(es, Carry())
  {
    if es != [] {
      var n := |es| - 1;
      AcceptedOfSent(es[..n]);
      assert es == es[..n] + [es[n]];
      MapAppend(es[..n], [es[n]], ToProto());
      MapAppend(es[..n], [es[n]], Carry());
      var files := Map(es, ToProto());
      assert files[..n] == Map(es[..n], ToProto());
      assert ProtoToEntry(files[n]) == Some(Carried(es[n]));
    }
  }

  /** The number of entries kept is the number of well-formed files. */
  lemma {:induction false} AcceptedCount(files: seq<CatalogFile>)
    ensures |Accepted(files)| == |Filter(files, (f: CatalogFile) => WellFormed(f))|
  {
    if files != [] {
      var n := |files| - 1;
      AcceptedCount(files[..n]);
      assert files == files[..n] + [files[n]];
      FilterAppend(files[..n], [files[n]], (f: CatalogFile) => WellFormed(f));
    }
  }

  /** The entries kept are those of the files with a 32-byte ID and a 32-byte owner, in
      order and field by field; the local path and the update time are not sent. */
  lemma {:induction false} AcceptedFields(files: seq<CatalogFile>)
    ensures var good := Filter(files, (f: CatalogFile) => |f.fileId| == 32 && |f.ownerNodeId| == 32);
            && |Accepted(files)| == |good|
            && forall i :: 0 <= i < |good| ==>
                 var e := Accepted(files)[i];
                 && e.fileID == good[i].fileId && e.name == good[i].name && e.size == good[i].size
                 && e.modTime == good[i].modTimeUnix * 1_000_000_000 && e.owner == good[i].ownerNodeId
                 && e.localPath == "" && e.deleted == good[i].deleted && e.updatedAt == 0
  {
    if files != [] {
      var n := |files| - 1;
      AcceptedFields(files[..n]);
      assert files == files[..n] + [files[n]];
      FilterAppend(files[..n], [files[n]], (f: CatalogFile) => |f.fileId| == 32 && |f.ownerNodeId| == 32);
    }
  }

  method AcceptFiles(files: seq<CatalogFile>) returns (entries: seq<Entry>)
    ensures entries == Accepted(files)
  {
    entries := [];
    for i := 0 to |files|
      invariant entries == Accepted(files[..i])
    {
      assert files[..i + 1][..i] == files[..i];
      var e := ProtoToEntry(files[i]);
      if e.Some? {
        entries := entries + [e.value];
      }
    }
    assert files[..|files|] == files;
  }
}
