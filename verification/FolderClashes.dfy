/** What happens when two calls of the watcher have one file in hand at once. */
module FolderClashes {
  import opened Basics
  import opened Catalog
  import opened Watcher
  import opened Folder
  import opened FolderPaths

  /** After one file is stored in an empty catalog it is what the path finds. */
  lemma FindsOnly(self: Id, f: Id, p: string, size: int, t: int, now: int)
    requires Encodable(t)
    ensures var db := PutLocal(EMPTY_DB, self, EntryFor(f, p, size, t), now);
            && Valid(db) && LocalByPath(db, self, p).Some? && LocalByPath(db, self, p).value.fileID == f
  {
    var e := EntryFor(f, p, size, t);
    var db := PutLocal(EMPTY_DB, self, e, now);
    PutLive(EMPTY_DB, self, e, now, f, p);
    LookupByPath(db, self, p);
    var g := LocalByPath(db, self, p).value.fileID;
    PutLive(EMPTY_DB, self, e, now, g, p);
    EmptyAgrees(self);
  }

  // ---- a removal that overtakes a callback about to record ----

  lemma RehashedThenRemoved(reach: World -> bool, self: Id, hash: Bytes -> Id, rules: set<Rule>, p: string, x: Bytes, t: int)
    requires Closed(reach, self, hash, rules) && reach(START) && rules == SIX - {NoClash} && Encodable(t)
    ensures reach(World(map[], [], [Timer(p, false)], map[], [Call(p, Rehashed(x, x))], Found(p, hash(x)),
                        StoredView(START.view, self, hash, p, x, t, t)))
  {
    var v := StoredView(START.view, self, hash, p, x, t, t);
    WritesAndArms(reach, self, hash, rules, START, p, x);
    var w1 := World(map[p := x], [], [Timer(p, false)], map[], [] + [Call(p, Begun)], Idle, START.view);
    assert [] + [Timer(p, false)] == w1.timers;
    HashesAndStores(reach, self, hash, rules, w1, [], p, t);
    var w2 := World(map[p := x], [], [Timer(p, false)], map[], [Call(p, Rehashed(x, x))], Idle, v);
    assert [] + [Call(p, Rehashed(x, x))] == w2.calls;
    DeletesAndLooks(reach, self, hash, rules, w2, p);
    assert map[p := x] - {p} == map[];
    FindsOnly(self, hash(x), p, |x|, t, t);
    LooksUp(reach, self, hash, rules, w2.(folder := map[], removal := Looking(p)), p);
  }

  /** The removal takes the file out of catalog and index, and then the callback records
      it: the index keeps a file that is gone. All other conditions hold. */
  lemma ClashLeavesIndexed(self: Id, hash: Bytes -> Id, p: string, x: Bytes, t: int) returns (w: World)
    requires Encodable(t)
    ensures Reachable(self, hash, SIX - {NoClash}, w) && Quiet(w)
    ensures w.folder == map[] && At(w.view, hash(x), p) && !Shows(w, self, hash)
  {
    var rules := SIX - {NoClash};
    var reach := Reach(self, hash, rules);
    ReachClosed(self, hash, rules);
    RehashedThenRemoved(reach, self, hash, rules, p, x, t);
    var v := StoredView(START.view, self, hash, p, x, t, t);
    var w1 := World(map[], [], [Timer(p, false)], map[], [Call(p, Rehashed(x, x))], Found(p, hash(x)), v);
    Drops(reach, self, hash, rules, w1, p, hash(x), t);
    var w2 := w1.(removal := Dropped(p, hash(x)), view := v.(db := DeleteLocal(v.db, self, hash(x), t)));
    Forgets(reach, self, hash, rules, w2, p, hash(x));
    var w3 := w2.(removal := Idle, view := w2.view.(index := w2.view.index - {hash(x)}));
    Records(reach, self, hash, rules, w3, p, x);
    w := w3.(calls := [Call(p, Finished)], view := w3.view.(index := w3.view.index[hash(x) := p]));
    assert LastAt(w3.calls, Finished) == w.calls;
    StaleNotShown(w, self, hash, hash(x), p);
  }

  // ---- a removal that takes out another path's file ----

  const LOSING: set<Rule> := {DistinctContents, StorableTimes, NoHurry, NoRace}

  /** p is rewritten; q is written with x; p is deleted. */
  lemma Rewritten(reach: World -> bool, self: Id, hash: Bytes -> Id, w: World, p: string, q: string, x: Bytes, y: Bytes)
    requires Closed(reach, self, hash, LOSING) && reach(w) && p != q && hash(x) != hash(y)
    requires w.events == [] && w.removal.Idle? && w.folder == map[p := x]
    ensures reach(w.(folder := map[q := x], events := [Touched(p)] + ([Touched(q)] + [Gone(p)])))
  {
    assert w.folder[p := y] == map[p := y];
    Writes(reach, self, hash, LOSING, w, p, y, 0);
    var w2 := w.(folder := map[p := y], events := [Touched(p)]);
    assert w.events + Burst(p, 1) == w2.events;
    Writes(reach, self, hash, LOSING, w2, q, x, 0);
    var w3 := w2.(folder := map[p := y, q := x], events := [Touched(p), Touched(q)]);
    assert w2.events + Burst(q, 1) == w3.events;
    Deletes(reach, self, hash, LOSING, w3, p);
    assert w3.folder - {p} == map[q := x];
    assert w3.events + [Gone(p)] == [Touched(p)] + ([Touched(q)] + [Gone(p)]);
  }

  /** p is listed with x before that. */
  lemma StaleAndNew(reach: World -> bool, self: Id, hash: Bytes -> Id, p: string, q: string, x: Bytes, y: Bytes, t: int)
    returns (w: World)
    requires Closed(reach, self, hash, LOSING) && reach(START) && p != q && hash(x) != hash(y) && Encodable(t)
    ensures reach(w) && Still(w, [Touched(p)] + ([Touched(q)] + [Gone(p)])) && w.folder == map[q := x]
    ensures w.view == AfterIndex(START.view, self, hash, p, x, Some(x), t, t)
  {
    assert START.folder[p := x] == map[p := x];
    var w1 := WritesAndIndexes(reach, self, hash, LOSING, START, p, x, t);
    Rewritten(reach, self, hash, w1, p, q, x, y);
    w := w1.(folder := map[q := x], events := [Touched(p)] + ([Touched(q)] + [Gone(p)]));
  }

  /** The timer of q is armed, that of p cancelled, and the removal of p has looked. */
  lemma LookedUpStale(reach: World -> bool, self: Id, hash: Bytes -> Id, w: World, p: string, q: string, x: Bytes, t: int)
    requires Closed(reach, self, hash, LOSING) && reach(w) && p != q && Encodable(t) && Distinct(w.folder, hash)
    requires Still(w, [Touched(p)] + ([Touched(q)] + [Gone(p)]))
    requires w.view == AfterIndex(START.view, self, hash, p, x, Some(x), t, t)
    ensures reach(w.(events := [], timers := w.timers + [Timer(p, false)] + [Timer(q, true)], entries := map[q := |w.timers| + 1],
                     removal := Found(p, hash(x))))
  {
    var n := |w.timers|;
    TakesTouch(reach, self, hash, LOSING, w, p, [Touched(q)] + [Gone(p)]);
    var w1 := w.(events := [Touched(q)] + [Gone(p)], timers := w.timers + [Timer(p, true)], entries := map[p := n]);
    assert w.entries[p := n] == w1.entries;
    TakesTouch(reach, self, hash, LOSING, w1, q, [Gone(p)]);
    var w2 := w1.(events := [Gone(p)] + [], timers := w1.timers + [Timer(q, true)], entries := map[p := n, q := n + 1]);
    assert w1.entries[q := |w1.timers|] == w2.entries && [Gone(p)] == w2.events;
    TakesGone(reach, self, hash, LOSING, w2, p, []);
    var w3 := w2.(events := [], timers := w.timers + [Timer(p, false)] + [Timer(q, true)], entries := map[q := n + 1], removal := Looking(p));
    assert w2.timers[n := Timer(p, false)] == w3.timers && w2.entries - {p} == w3.entries;
    FindsOnly(self, hash(x), p, |x|, t, t);
    LooksUp(reach, self, hash, LOSING, w3, p);
  }

  /** The callback of q begins and hashes the file the removal has in hand. */
  lemma HashWhileFound(reach: World -> bool, self: Id, hash: Bytes -> Id, w: World, before: seq<Timer>, q: string, x: Bytes, t: int)
    requires Closed(reach, self, hash, LOSING) && reach(w) && Encodable(t) && Distinct(w.folder, hash)
    requires w.timers == before + [Timer(q, true)] && q in w.folder && w.folder[q] == x
    ensures reach(w.(timers := before + [Timer(q, false)], entries := w.entries - {q}, calls := w.calls + [Call(q, Hashed(x, t))]))
  {
    Expires(reach, self, hash, LOSING, w, q);
    var w1 := w.(timers := before + [Timer(q, false)], calls := w.calls + [Call(q, Waiting)]);
    assert w.timers[..|w.timers| - 1] == before;
    Begins(reach, self, hash, LOSING, w1, q);
    var w2 := w1.(calls := w.calls + [Call(q, Begun)], entries := w.entries - {q});
    assert LastAt(w1.calls, Begun) == w2.calls;
    Hashes(reach, self, hash, LOSING, w2, q, t);
    assert LastAt(w2.calls, Hashed(x, t)) == w.calls + [Call(q, Hashed(x, t))];
  }

  /** The callback stores, the removal drops, the callback records, the removal forgets. */
  lemma StoreThenDrop(reach: World -> bool, self: Id, hash: Bytes -> Id, w: World, before: seq<Call>, p: string, q: string, x: Bytes, t: int)
    returns (w': World)
    requires Closed(reach, self, hash, LOSING) && reach(w) && Encodable(t) && w.folder == map[q := x]
    requires w.calls == before + [Call(q, Hashed(x, t))] && w.removal == Found(p, hash(x))
    ensures reach(w') && w'.folder == w.folder && w'.events == w.events && w'.timers == w.timers && w'.removal == Idle
    ensures w'.calls == before + [Call(q, Finished)] && hash(x) !in w'.view.index
  {
    Stores(reach, self, hash, LOSING, w, q, x, t, t);
    var w1 := w.(calls := before + [Call(q, Stored(x))], view := StoredView(w.view, self, hash, q, x, t, t));
    assert LastAt(w.calls, Stored(x)) == w1.calls;
    Drops(reach, self, hash, LOSING, w1, p, hash(x), t);
    var w2 := w1.(removal := Dropped(p, hash(x)), view := w1.view.(db := DeleteLocal(w1.view.db, self, hash(x), t)));
    Rehashes(reach, self, hash, LOSING, w2, q, x);
    var w3 := w2.(calls := before + [Call(q, Rehashed(x, x))]);
    assert LastAt(w2.calls, Rehashed(x, x)) == w3.calls;
    Records(reach, self, hash, LOSING, w3, q, x);
    var w4 := w3.(calls := before + [Call(q, Finished)], view := w3.view.(index := w3.view.index[hash(x) := q]));
    assert LastAt(w3.calls, Finished) == w4.calls;
    Forgets(reach, self, hash, LOSING, w4, p, hash(x));
    w' := w4.(removal := Idle, view := w4.view.(index := w4.view.index - {hash(x)}));
  }

  /** A removal of p with the stale file x in hand while a callback of q stores it: with
      distinct contents and storable times, q is in the folder and not listed. */
  lemma ClashLosesFile(self: Id, hash: Bytes -> Id, p: string, q: string, x: Bytes, y: Bytes, t: int) returns (w: World)
    requires p != q && hash(x) != hash(y) && Encodable(t)
    ensures Reachable(self, hash, LOSING, w) && Quiet(w)
    ensures w.folder == map[q := x] && !At(w.view, hash(x), q)
  {
    var reach := Reach(self, hash, LOSING);
    ReachClosed(self, hash, LOSING);
    var w1 := StaleAndNew(reach, self, hash, p, q, x, y, t);
    LookedUpStale(reach, self, hash, w1, p, q, x, t);
    var w2 := w1.(events := [], timers := w1.timers + [Timer(p, false)] + [Timer(q, true)], entries := map[q := |w1.timers| + 1],
                  removal := Found(p, hash(x)));
    HashWhileFound(reach, self, hash, w2, w1.timers + [Timer(p, false)], q, x, t);
    var w3 := w2.(timers := w1.timers + [Timer(p, false)] + [Timer(q, false)], entries := w2.entries - {q},
                  calls := w1.calls + [Call(q, Hashed(x, t))]);
    w := StoreThenDrop(reach, self, hash, w3, w1.calls, p, q, x, t);
  }

  // ---- two callbacks that cross ----

  const CROSSING: set<Rule> := {StorableTimes, NoRewrite, NoHurry, NoRace, Steady, StillThere}

  function Two(p: string, a: Stage, q: string, b: Stage, folder: map<string, Bytes>, v: View): World {
    World(folder, [], [Timer(p, false), Timer(q, false)], map[], [Call(p, a), Call(q, b)], Idle, v)
  }

  lemma TwoStep(reach: World -> bool, self: Id, hash: Bytes -> Id, w: World, s: Step, w': World)
    requires Closed(reach, self, hash, CROSSING) && reach(w) && Apply(w, self, hash, s) == w'
    requires (s.Hash? && Encodable(s.modTime)) || s.Store? || s.Record?
             || (s.Rehash? && Obeys(w, self, hash, s, Steady) && Obeys(w, self, hash, s, StillThere))
    ensures reach(w')
  {
    if s.Hash? || s.Rehash? {
      Reads(reach, self, hash, CROSSING, w, s);
    } else {
      Harmless(reach, self, hash, CROSSING, w, s);
    }
  }

  lemma BothHashed(reach: World -> bool, self: Id, hash: Bytes -> Id, p: string, q: string, x: Bytes, t: int)
    requires Closed(reach, self, hash, CROSSING) && reach(START) && p != q && Encodable(t)
    ensures reach(Two(p, Hashed(x, t), q, Hashed(x, t), map[p := x, q := x], START.view))
  {
    WritesAndArms(reach, self, hash, CROSSING, START, p, x);
    var w1 := World(map[p := x], [], [Timer(p, false)], map[], [Call(p, Begun)], Idle, START.view);
    assert [] + [Timer(p, false)] == w1.timers && [] + [Call(p, Begun)] == w1.calls;
    WritesAndArms(reach, self, hash, CROSSING, w1, q, x);
    var f := map[p := x, q := x];
    var w2 := Two(p, Begun, q, Begun, f, START.view);
    assert w1.timers + [Timer(q, false)] == w2.timers && w1.calls + [Call(q, Begun)] == w2.calls && w1.folder[q := x] == f;
    TwoStep(reach, self, hash, w2, Hash(0, t), Two(p, Hashed(x, t), q, Begun, f, START.view));
    TwoStep(reach, self, hash, Two(p, Hashed(x, t), q, Begun, f, START.view), Hash(1, t),
            Two(p, Hashed(x, t), q, Hashed(x, t), f, START.view));
  }

  lemma StoreFirst(reach: World -> bool, self: Id, hash: Bytes -> Id, p: string, q: string, b: Stage, f: map<string, Bytes>, v: View, x: Bytes, t: int)
    requires Closed(reach, self, hash, CROSSING) && Encodable(t) && reach(Two(p, Hashed(x, t), q, b, f, v))
    ensures reach(Two(p, Stored(x), q, b, f, StoredView(v, self, hash, p, x, t, t)))
  {
    TwoStep(reach, self, hash, Two(p, Hashed(x, t), q, b, f, v), Store(0, t), Two(p, Stored(x), q, b, f, StoredView(v, self, hash, p, x, t, t)));
  }

  lemma StoreSecond(reach: World -> bool, self: Id, hash: Bytes -> Id, p: string, a: Stage, q: string, f: map<string, Bytes>, v: View, x: Bytes, t: int)
    requires Closed(reach, self, hash, CROSSING) && Encodable(t) && reach(Two(p, a, q, Hashed(x, t), f, v))
    ensures reach(Two(p, a, q, Stored(x), f, StoredView(v, self, hash, q, x, t, t)))
  {
    TwoStep(reach, self, hash, Two(p, a, q, Hashed(x, t), f, v), Store(1, t), Two(p, a, q, Stored(x), f, StoredView(v, self, hash, q, x, t, t)));
  }

  lemma BothRehashed(reach: World -> bool, self: Id, hash: Bytes -> Id, p: string, q: string, f: map<string, Bytes>, v: View, x: Bytes)
    requires Closed(reach, self, hash, CROSSING) && reach(Two(p, Stored(x), q, Stored(x), f, v))
    requires p in f && q in f && f[p] == x && f[q] == x
    ensures reach(Two(p, Rehashed(x, x), q, Rehashed(x, x), f, v))
  {
    TwoStep(reach, self, hash, Two(p, Stored(x), q, Stored(x), f, v), Rehash(0), Two(p, Rehashed(x, x), q, Stored(x), f, v));
    TwoStep(reach, self, hash, Two(p, Rehashed(x, x), q, Stored(x), f, v), Rehash(1), Two(p, Rehashed(x, x), q, Rehashed(x, x), f, v));
  }

  lemma BothStored(reach: World -> bool, self: Id, hash: Bytes -> Id, p: string, q: string, x: Bytes, t: int)
    requires Closed(reach, self, hash, CROSSING) && p != q && Encodable(t)
    requires reach(Two(p, Hashed(x, t), q, Hashed(x, t), map[p := x, q := x], START.view))
    ensures var v := StoredView(StoredView(START.view, self, hash, p, x, t, t), self, hash, q, x, t, t);
            reach(Two(p, Rehashed(x, x), q, Rehashed(x, x), map[p := x, q := x], v))
  {
    var f := map[p := x, q := x];
    var v1 := StoredView(START.view, self, hash, p, x, t, t);
    StoreFirst(reach, self, hash, p, q, Hashed(x, t), f, START.view, x, t);
    StoreSecond(reach, self, hash, p, Stored(x), q, f, v1, x, t);
    BothRehashed(reach, self, hash, p, q, f, StoredView(v1, self, hash, q, x, t, t), x);
  }

  /** The second callback records first. */
  lemma CrossRecorded(reach: World -> bool, self: Id, hash: Bytes -> Id, p: string, q: string, f: map<string, Bytes>, v: View, x: Bytes)
    requires Closed(reach, self, hash, CROSSING) && reach(Two(p, Rehashed(x, x), q, Rehashed(x, x), f, v))
    ensures reach(Two(p, Finished, q, Finished, f, v.(index := v.index[hash(x) := q][hash(x) := p])))
  {
    var w2 := Two(p, Rehashed(x, x), q, Finished, f, v.(index := v.index[hash(x) := q]));
    TwoStep(reach, self, hash, Two(p, Rehashed(x, x), q, Rehashed(x, x), f, v), Record(1), w2);
    TwoStep(reach, self, hash, w2, Record(0), Two(p, Finished, q, Finished, f, v.(index := v.index[hash(x) := q][hash(x) := p])));
  }

  lemma StoredLast(self: Id, hash: Bytes -> Id, p: string, q: string, x: Bytes, t: int)
    requires Encodable(t)
    ensures var v := StoredView(StoredView(START.view, self, hash, p, x, t, t), self, hash, q, x, t, t);
            LiveAs(v.db, self, hash(x), q)
  {
    var v1 := StoredView(START.view, self, hash, p, x, t, t);
    EmptyAgrees(self);
    PutLive(EMPTY_DB, self, EntryFor(hash(x), p, |x|, t), t, hash(x), p);
    PutLive(v1.db, self, EntryFor(hash(x), q, |x|, t), t, hash(x), q);
  }

  /** Two callbacks on files with one content, both finding the same content twice: the
      catalog is left with one path and the index with the other. */
  lemma CrossedCallbacksDisagree(self: Id, hash: Bytes -> Id, p: string, q: string, x: Bytes, t: int) returns (w: World)
    requires p != q && Encodable(t)
    ensures Reachable(self, hash, CROSSING, w) && Quiet(w) && !Agree(w.view, self)
  {
    var reach := Reach(self, hash, CROSSING);
    ReachClosed(self, hash, CROSSING);
    BothHashed(reach, self, hash, p, q, x, t);
    BothStored(reach, self, hash, p, q, x, t);
    var f := map[p := x, q := x];
    var v := StoredView(StoredView(START.view, self, hash, p, x, t, t), self, hash, q, x, t, t);
    CrossRecorded(reach, self, hash, p, q, f, v, x);
    w := Two(p, Finished, q, Finished, f, v.(index := v.index[hash(x) := q][hash(x) := p]));
    StoredLast(self, hash, p, q, x, t);
    assert LiveAs(w.view.db, self, hash(x), q) && w.view.index[hash(x)] == p;
  }
}
