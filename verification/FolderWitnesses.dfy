/** Each condition under which the catalog shows the folder is needed: runs that meet all
    the others and end, with nothing left to do, on a catalog or an index that is wrong. */
module FolderWitnesses {
  import opened Basics
  import opened Bucket
  import opened Catalog
  import opened Watcher
  import opened Folder
  import opened FolderPaths

  /** Two files with the same content: only the later one is shown. */
  lemma DuplicateHides(self: Id, hash: Bytes -> Id, p: string, q: string, x: Bytes, t: int) returns (w: World)
    requires p != q && Encodable(t)
    ensures Reachable(self, hash, SIX - {DistinctContents}, w) && Quiet(w)
    ensures w.folder == map[p := x, q := x] && !Shows(w, self, hash)
  {
    var rules := SIX - {DistinctContents};
    var reach := Reach(self, hash, rules);
    ReachClosed(self, hash, rules);
    var w1 := WritesAndIndexes(reach, self, hash, rules, START, p, x, t);
    w := WritesAndIndexes(reach, self, hash, rules, w1, q, x, t);
    MissingNotShown(w, self, hash, p);
  }

  /** A file rewritten in place stays listed under its old content. */
  lemma RewriteLeavesStale(self: Id, hash: Bytes -> Id, p: string, x: Bytes, y: Bytes, t: int) returns (w: World)
    requires hash(x) != hash(y) && Encodable(t)
    ensures Reachable(self, hash, SIX - {NoRewrite}, w) && Quiet(w)
    ensures w.folder == map[p := y] && At(w.view, hash(x), p) && !Shows(w, self, hash)
  {
    var rules := SIX - {NoRewrite};
    var reach := Reach(self, hash, rules);
    ReachClosed(self, hash, rules);
    var w1 := WritesAndIndexes(reach, self, hash, rules, START, p, x, t);
    assert w1.folder[p := y] == map[p := y];
    w := WritesAndIndexes(reach, self, hash, rules, w1, p, y, t);
    StaleNotShown(w, self, hash, hash(x), p);
  }

  /** A file whose time cannot be stored is never listed. */
  lemma UndatedIsMissing(self: Id, hash: Bytes -> Id, p: string, x: Bytes, t: int) returns (w: World)
    requires !Encodable(t)
    ensures Reachable(self, hash, SIX - {StorableTimes}, w) && Quiet(w)
    ensures w.folder == map[p := x] && !Shows(w, self, hash)
  {
    var rules := SIX - {StorableTimes};
    var reach := Reach(self, hash, rules);
    ReachClosed(self, hash, rules);
    HashedNew(reach, self, hash, rules, p, x, t);
    var w2 := World(map[p := x], [], [Timer(p, false)], map[], [Call(p, Hashed(x, t))], Idle, START.view);
    Harmless(reach, self, hash, rules, w2, Store(0, t));
    w := Apply(w2, self, hash, Store(0, t));
    assert w.calls == [Call(p, Finished)];
    MissingNotShown(w, self, hash, p);
  }

  lemma FindsNothing(self: Id, p: string)
    ensures LocalByPath(EMPTY_DB, self, p) == None
  {
  }

  /** The callback of a new file has hashed it. */
  lemma HashedNew(reach: World -> bool, self: Id, hash: Bytes -> Id, rules: set<Rule>, p: string, x: Bytes, t: int)
    requires Closed(reach, self, hash, rules) && reach(START) && rules <= SIX && (StorableTimes in rules ==> Encodable(t))
    ensures reach(World(map[p := x], [], [Timer(p, false)], map[], [Call(p, Hashed(x, t))], Idle, START.view))
  {
    assert START.folder[p := x] == map[p := x];
    WritesAndArms(reach, self, hash, rules, START, p, x);
    var w1 := World(map[p := x], [], [Timer(p, false)], map[], [Call(p, Begun)], Idle, START.view);
    assert [] + [Timer(p, false)] == w1.timers && [] + [Call(p, Begun)] == w1.calls;
    Hashes(reach, self, hash, rules, w1, p, t);
    assert LastAt(w1.calls, Hashed(x, t)) == [Call(p, Hashed(x, t))];
  }

  /** A file deleted while its callback hashes it, and a removal that finds nothing. */
  lemma RemovedWhileHashed(reach: World -> bool, self: Id, hash: Bytes -> Id, rules: set<Rule>, p: string, x: Bytes, t: int)
    requires Closed(reach, self, hash, rules) && reach(START) && rules == SIX - {NoRace} && Encodable(t)
    ensures reach(World(map[], [], [Timer(p, false)], map[], [Call(p, Hashed(x, t))], Idle, START.view))
  {
    HashedNew(reach, self, hash, rules, p, x, t);
    var w2 := World(map[p := x], [], [Timer(p, false)], map[], [Call(p, Hashed(x, t))], Idle, START.view);
    DeletesAndLooks(reach, self, hash, rules, w2, p);
    assert map[p := x] - {p} == map[];
    FindsNothing(self, p);
    LooksUp(reach, self, hash, rules, w2.(folder := map[], removal := Looking(p)), p);
  }

  /** The callback then lists the file, and it stays listed for good, in the catalog but
      not in the index. */
  lemma RaceLeavesRemoved(self: Id, hash: Bytes -> Id, p: string, x: Bytes, t: int) returns (w: World)
    requires Encodable(t)
    ensures Reachable(self, hash, SIX - {NoRace}, w) && Quiet(w)
    ensures w.folder == map[] && LiveAs(w.view.db, self, hash(x), p) && !Shows(w, self, hash) && !Agree(w.view, self)
  {
    var rules := SIX - {NoRace};
    var reach := Reach(self, hash, rules);
    ReachClosed(self, hash, rules);
    RemovedWhileHashed(reach, self, hash, rules, p, x, t);
    var w1 := World(map[], [], [Timer(p, false)], map[], [Call(p, Hashed(x, t))], Idle, START.view);
    Stores(reach, self, hash, rules, w1, p, x, t, t);
    var w2 := w1.(calls := [Call(p, Stored(x))], view := StoredView(START.view, self, hash, p, x, t, t));
    assert LastAt(w1.calls, Stored(x)) == w2.calls;
    Rehashes(reach, self, hash, rules, w2, p, x);
    w := w2.(calls := [Call(p, Finished)]);
    assert LastAt(w2.calls, Finished) == w.calls;
    PutLive(EMPTY_DB, self, EntryFor(hash(x), p, |x|, t), t, hash(x), p);
    StaleNotShown(w, self, hash, hash(x), p);
  }

  // ---- a path used again too early ----

  /** A burst of two events; the file is indexed after the first, then deleted and replaced. */
  lemma Replaces(reach: World -> bool, self: Id, hash: Bytes -> Id, rules: set<Rule>, p: string, x: Bytes, y: Bytes, t: int)
    returns (w: World)
    requires Closed(reach, self, hash, rules) && reach(START) && rules == SIX - {NoHurry} && Encodable(t)
    ensures reach(w) && Still(w, [Touched(p)] + ([Gone(p)] + [Touched(p)])) && w.folder == map[p := y]
    ensures w.view == AfterIndex(START.view, self, hash, p, x, Some(x), t, t)
  {
    Writes(reach, self, hash, rules, START, p, x, 1);
    var w1 := START.(folder := map[p := x], events := [Touched(p)] + [Touched(p)]);
    assert START.events + Burst(p, 2) == w1.events;
    var w2 := Indexes(reach, self, hash, rules, w1, p, [Touched(p)], t);
    Deletes(reach, self, hash, rules, w2, p);
    var w3 := w2.(folder := map[], events := [Touched(p)] + [Gone(p)]);
    assert w2.folder - {p} == map[];
    Writes(reach, self, hash, rules, w3, p, y, 0);
    w := w3.(folder := map[p := y], events := [Touched(p)] + ([Gone(p)] + [Touched(p)]));
    assert w3.events + Burst(p, 1) == w.events;
  }

  /** With two entries at the path the removal takes the one with the lower hash. */
  lemma RemovesTheWrongOne(v: View, self: Id, p: string, f: Id, g: Id, now: int)
    requires Valid(v.db) && Agree(v, self)
    requires Less(f, g) && At(v, f, p) && At(v, g, p)
    ensures LocalByPath(v.db, self, p).Some? && At(AfterRemove(v, self, p, now), g, p)
  {
    assert LiveAs(v.db, self, f, p);
    FindsLowest(v.db, self, p, f);
    LookupByPath(v.db, self, p);
  }

  lemma IndexedAgrees(v: View, self: Id, hash: Bytes -> Id, p: string, x: Bytes, t: int)
    requires Valid(v.db) && Agree(v, self) && Encodable(t)
    ensures var v' := AfterIndex(v, self, hash, p, x, Some(x), t, t);
            Valid(v'.db) && Agree(v', self) && v'.index == v.index[hash(x) := p]
  {
    IndexAgreement(v, self, hash, p, x, Some(x), t, t);
  }

  /** Both contents listed at p, the removal takes out y, and y is indexed again. */
  lemma StaleAfterRemoval(self: Id, hash: Bytes -> Id, p: string, x: Bytes, y: Bytes, t: int)
    requires Less(hash(y), hash(x)) && Encodable(t)
    ensures var v := AfterIndex(START.view, self, hash, p, x, Some(x), t, t);
            var v1 := AfterIndex(v, self, hash, p, y, Some(y), t, t);
            LocalByPath(v1.db, self, p).Some? && At(AfterRemove(v1, self, p, 0), hash(x), p) && hash(x) != hash(y)
  {
    LessIrreflexive(hash(x));
    EmptyAgrees(self);
    IndexedAgrees(START.view, self, hash, p, x, t);
    var v := AfterIndex(START.view, self, hash, p, x, Some(x), t, t);
    IndexedAgrees(v, self, hash, p, y, t);
    RemovesTheWrongOne(AfterIndex(v, self, hash, p, y, Some(y), t, t), self, p, hash(y), hash(x), 0);
  }

  /** A path used again while its removal is queued can keep its old content listed. */
  lemma HurryLeavesStale(self: Id, hash: Bytes -> Id, p: string, x: Bytes, y: Bytes, t: int) returns (w: World)
    requires Less(hash(y), hash(x)) && Encodable(t)
    ensures Reachable(self, hash, SIX - {NoHurry}, w) && Quiet(w)
    ensures w.folder == map[p := y] && At(w.view, hash(x), p) && !Shows(w, self, hash)
  {
    var rules := SIX - {NoHurry};
    var reach := Reach(self, hash, rules);
    ReachClosed(self, hash, rules);
    StaleAfterRemoval(self, hash, p, x, y, t);
    var w1 := Replaces(reach, self, hash, rules, p, x, y, t);
    var w2 := Indexes(reach, self, hash, rules, w1, p, [Gone(p)] + [Touched(p)], t);
    var w3 := Removes(reach, self, hash, rules, w2, p, [Touched(p)]);
    assert [Touched(p)] == [Touched(p)] + [];
    w := Indexes(reach, self, hash, rules, w3, p, [], t);
    StaleNotShown(w, self, hash, hash(x), p);
  }
}
