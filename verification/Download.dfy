/** Fetching a file from the owners the catalog knows, most recently seen first. */
module Download {
  import opened Basics
  import opened Catalog
  import opened LocalFiles
  import opened Paths
  import opened Transfer

  /** What dialling one owner leads to. */
  datatype Attempt = Attempt(
    inbox: Option<seq<Msg>>,
    name: Option<string>,
    faults: Faults,
    renameFails: bool,
    unreadable: bool,
    tmp: string)

  function Served(id: Id, hash: Bytes -> Id, a: Attempt): (r: Option<Bytes>)
    ensures r.Some? ==> hash(r.value) == id
  {
    if a.inbox.None? then None else Fetched(id, hash, a.inbox.value, a.faults)
  }

  /** Where a downloaded file ends up: under its own name unless the peer gave none, it
      is taken, or the rename fails. `taken` are the names, besides the parent
      directory's, that exist without being plain files. */
  function FinalName(id: Id, a: Attempt, files: map<string, Bytes>, taken: set<string>): string {
    if a.name.None? || a.name.value == "" then Hex(id)
    else
      var safe := Base(a.name.value);
      if safe == "." || safe == "/" || safe == ".." || safe in files || safe in taken || a.renameFails
      then Hex(id) else safe
  }

  function Renamed(id: Id, a: Attempt, files: map<string, Bytes>, taken: set<string>): map<string, Bytes>
    requires Hex(id) in files
  {
    var name := FinalName(id, a, files, taken);
    if name == Hex(id) then files else (files - {Hex(id)})[name := files[Hex(id)]]
  }

  method FilterSelf(owners: seq<OwnerHint>, self: Id) returns (filtered: seq<OwnerHint>)
    ensures filtered == Filter(owners, OtherNode(self))
  {
    filtered := [];
    for i := 0 to |owners|
      invariant filtered == Filter(owners[..i], OtherNode(self))
    {
      assert owners[..i + 1] == owners[..i] + [owners[i]];
      FilterAppend(owners[..i], [owners[i]], OtherNode(self));
      if owners[i].nodeID != self {
        filtered := filtered + [owners[i]];
      }
    }
    assert owners[..|owners|] == owners;
  }

  /** sort.Slice by descending SeenAt; equal times may come in any order. */
  ghost predicate NewestFirst(order: seq<OwnerHint>) {
    forall i, j :: 0 <= i < j < |order| ==> order[i].seenAt >= order[j].seenAt
  }

  method InsertNewestFirst(order: seq<OwnerHint>, h: OwnerHint) returns (r: seq<OwnerHint>)
    requires NewestFirst(order)
    ensures NewestFirst(r) && multiset(r) == multiset(order) + multiset{h}
  {
    var k := 0;
    while k < |order| && order[k].seenAt >= h.seenAt
      invariant 0 <= k <= |order|
      invariant forall j :: 0 <= j < k ==> order[j].seenAt >= h.seenAt
    {
      k := k + 1;
    }
    InsertAt(order, k, h);
    r := order[..k] + [h] + order[k..];
  }

  method SortNewestFirst(owners: seq<OwnerHint>) returns (order: seq<OwnerHint>)
    ensures multiset(order) == multiset(owners) && NewestFirst(order)
  {
    order := [];
    for i := 0 to |owners|
      invariant multiset(order) == multiset(owners[..i]) && NewestFirst(order)
    {
      assert owners[..i + 1] == owners[..i] + [owners[i]];
      order := InsertNewestFirst(order, owners[i]);
    }
    assert owners[..|owners|] == owners;
  }

  lemma InsertAt(order: seq<OwnerHint>, k: nat, h: OwnerHint)
    requires NewestFirst(order) && k <= |order|
    requires forall j :: 0 <= j < k ==> order[j].seenAt >= h.seenAt
    requires k < |order| ==> order[k].seenAt < h.seenAt
    ensures NewestFirst(order[..k] + [h] + order[k..])
    ensures multiset(order[..k] + [h] + order[k..]) == multiset(order) + multiset{h}
  {
    assert order == order[..k] + order[k..];
  }

  /** Some owner other than this node can serve the file. */
  ghost predicate CanServe(id: Id, hash: Bytes -> Id, attempts: Id -> Attempt, owners: seq<OwnerHint>, self: Id, h: OwnerHint) {
    h in owners && h.nodeID != self && Served(id, hash, attempts(h.nodeID)).Some?
  }

  ghost predicate TmpNamesFree(attempts: Id -> Attempt, files: map<string, Bytes>) {
    forall n: Id :: TMP_PREFIX <= attempts(n).tmp && attempts(n).tmp !in files
  }

  /** The attempt loop over owners in order: the first that serves wins, and failed
      attempts leave the directory alone. */
  method TryInOrder(dir: Dir, index: LocalIndex, id: Id, hash: Bytes -> Id, order: seq<OwnerHint>, attempts: Id -> Attempt,
                    taken: set<string>)
    returns (r: Option<string>, ghost used: nat)
    requires TmpNamesFree(attempts, dir.files)
    modifies dir, index
    ensures used <= |order| && forall j :: 0 <= j < used ==> Served(id, hash, attempts(order[j].nodeID)).None?
    ensures r.None? ==> used == |order| && dir.files == old(dir.files) && index.index == old(index.index)
    ensures r.Some? ==> used < |order| && SavedFrom(id, hash, attempts(order[used].nodeID), old(dir.files), taken, r.value, dir.files)
    ensures r.Some? ==>
              index.index == if attempts(order[used].nodeID).unreadable then old(index.index) else old(index.index)[id := r.value]
  {
    used := 0;
    var i := 0;
    while i < |order|
      invariant 0 <= i <= |order| && used == i && dir.files == old(dir.files) && index.index == old(index.index)
      invariant forall j :: 0 <= j < i ==> Served(id, hash, attempts(order[j].nodeID)).None?
    {
      var a := attempts(order[i].nodeID);
      if a.inbox.Some? {
        var got := dir.RequestFile(id, hash, a.tmp, a.inbox.value, a.faults);
        if got.Saved? {
          var name := FinalName(id, a, dir.files, taken);
          dir.files := Renamed(id, a, dir.files, taken);
          SavedIsSafe(id, hash, a, old(dir.files), taken, name, dir.files);
          var _ := index.Add(hash, name, if a.unreadable then None else Some(dir.files[name]));
          return Some(name), i;
        }
      }
      i := i + 1;
      used := i;
    }
    r := None;
  }

  /** The directory after a successful attempt. */
  ghost predicate SavedFrom(id: Id, hash: Bytes -> Id, a: Attempt, before: map<string, Bytes>, taken: set<string>,
                            name: string, after: map<string, Bytes>) {
    var data := Served(id, hash, a);
    && data.Some?
    && name == FinalName(id, a, before[Hex(id) := data.value], taken)
    && after == Renamed(id, a, before[Hex(id) := data.value], taken)
  }

  lemma {:induction false} HexClean(b: Bytes)
    ensures '/' !in Hex(b)
  {
    if b != [] {
      HexClean(b[1..]);
    }
  }

  /** A saved file has the requested content, sits in the directory itself, and no
      other file is touched or overwritten. */
  lemma SavedIsSafe(id: Id, hash: Bytes -> Id, a: Attempt, before: map<string, Bytes>, taken: set<string>,
                    name: string, after: map<string, Bytes>)
    requires SavedFrom(id, hash, a, before, taken, name, after)
    ensures name in after && hash(after[name]) == id && '/' !in name
    ensures forall other :: other in before && other != Hex(id) ==>
              other != name && other in after && after[other] == before[other]
    ensures forall other :: other in after && other != name && other != Hex(id) ==> other in before
  {
    HexClean(id);
    if a.name.Some? {
      BaseIsAName(a.name.value);
    }
  }

  /** The file is kept under n: the last part of the name in the owner's catalog entry,
      neither "." nor ".." nor the name of anything there, and the rename works. */
  ghost predicate KeptAs(a: Attempt, before: map<string, Bytes>, taken: set<string>, n: string) {
    && a.name.Some? && LastPart(a.name.value, n) && n != "." && n != ".."
    && n !in before && n !in taken && !a.renameFails
  }

  /** A saved file replaces what was under the hash name, and is kept under its original
      name when it can be, under the hash name otherwise. */
  lemma SavedUnderItsName(id: Id, hash: Bytes -> Id, a: Attempt, before: map<string, Bytes>, taken: set<string>,
                          name: string, after: map<string, Bytes>)
    requires SavedFrom(id, hash, a, before, taken, name, after)
    ensures after == (before - {Hex(id)})[name := Served(id, hash, a).value]
    ensures forall n :: KeptAs(a, before, taken, n) ==> name == n
    ensures (forall n :: !KeptAs(a, before, taken, n)) ==> name == Hex(id)
  {
    if a.name.Some? {
      BaseIsLastPart(a.name.value);
      if name != Hex(id) {
        assert KeptAs(a, before, taken, name);
      }
    }
  }

  /** Download: the file comes from the most recently seen owner that can serve it,
      never from this node; it replaces what was under the hash name, is kept under its
      original name when it can be, and is entered in the local index unless it cannot be
      read. It fails, with directory and index unchanged, exactly when no owner can serve. */
  method Download(dir: Dir, index: LocalIndex, id: Id, hash: Bytes -> Id, self: Id, owners: seq<OwnerHint>,
                  attempts: Id -> Attempt, taken: set<string>)
    returns (r: Option<string>, ghost source: OwnerHint)
    requires TmpNamesFree(attempts, dir.files)
    modifies dir, index
    ensures r.None? <==> forall h :: !CanServe(id, hash, attempts, owners, self, h)
    ensures r.None? ==> dir.files == old(dir.files) && index.index == old(index.index)
    ensures r.Some? ==>
              index.index == if attempts(source.nodeID).unreadable then old(index.index) else old(index.index)[id := r.value]
    ensures r.Some? ==>
              && CanServe(id, hash, attempts, owners, self, source)
              && (forall h :: CanServe(id, hash, attempts, owners, self, h) ==> h.seenAt <= source.seenAt)
              && (forall n :: KeptAs(attempts(source.nodeID), old(dir.files), taken, n) ==> r.value == n)
              && ((forall n :: !KeptAs(attempts(source.nodeID), old(dir.files), taken, n)) ==> r.value == Hex(id))
    ensures r.Some? ==>
              && r.value in dir.files && hash(dir.files[r.value]) == id && '/' !in r.value
              && dir.files == (old(dir.files) - {Hex(id)})[r.value := dir.files[r.value]]
              && (r.value in old(dir.files) ==> r.value == Hex(id))
  {
    source := OwnerHint(self, 0);
    var filtered := FilterSelf(owners, self);
    var order := SortNewestFirst(filtered);
    ghost var used;
    r, used := TryInOrder(dir, index, id, hash, order, attempts, taken);
    forall h | CanServe(id, hash, attempts, owners, self, h)
      ensures used < |order| && h.seenAt <= order[used].seenAt
    {
      LaterInOrder(id, hash, attempts, owners, self, order, used, h);
    }
    if r.Some? {
      source := order[used];
      OrderFrom(owners, self, order, source);
      assert CanServe(id, hash, attempts, owners, self, source);
      SavedIsSafe(id, hash, attempts(source.nodeID), old(dir.files), taken, r.value, dir.files);
      SavedUnderItsName(id, hash, attempts(source.nodeID), old(dir.files), taken, r.value, dir.files);
    }
  }

  lemma LaterInOrder(id: Id, hash: Bytes -> Id, attempts: Id -> Attempt, owners: seq<OwnerHint>, self: Id,
                     order: seq<OwnerHint>, used: nat, h: OwnerHint)
    requires multiset(order) == multiset(Filter(owners, OtherNode(self))) && NewestFirst(order) && used <= |order|
    requires forall j :: 0 <= j < used ==> Served(id, hash, attempts(order[j].nodeID)).None?
    requires CanServe(id, hash, attempts, owners, self, h)
    ensures used < |order| && h.seenAt <= order[used].seenAt
  {
    OrderHas(owners, self, order, h);
    var i :| 0 <= i < |order| && order[i] == h;
    assert used <= i;
  }

  lemma OrderHas(owners: seq<OwnerHint>, self: Id, order: seq<OwnerHint>, h: OwnerHint)
    requires multiset(order) == multiset(Filter(owners, OtherNode(self))) && h in owners && h.nodeID != self
    ensures exists i :: 0 <= i < |order| && order[i] == h
  {
    var j :| 0 <= j < |owners| && owners[j] == h;
    var i := FilterImage(owners, OtherNode(self), j);
    assert h in multiset(Filter(owners, OtherNode(self)));
    assert h in order;
  }

  lemma OrderFrom(owners: seq<OwnerHint>, self: Id, order: seq<OwnerHint>, h: OwnerHint)
    requires multiset(order) == multiset(Filter(owners, OtherNode(self))) && h in order
    ensures h in owners && h.nodeID != self
  {
    var s := Filter(owners, OtherNode(self));
    assert h in multiset(order) && h in multiset(s) && h in s;
    var i :| 0 <= i < |s| && s[i] == h;
    var j := FilterOrigin(owners, OtherNode(self), i);
  }
}
