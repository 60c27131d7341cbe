/** Building blocks for concrete runs of the folder machine: each takes a reachable state
    to a reachable state. */
module FolderPaths {
  import opened Basics
  import opened Catalog
  import opened Watcher
  import opened Folder

  /** The conditions of CarefulRunsShowFolder. */
  const SIX: set<Rule> := {DistinctContents, StorableTimes, NoRewrite, NoHurry, NoClash, NoRace}

  /** With those of ApartAgrees. */
  const EIGHT: set<Rule> := {DistinctContents, StorableTimes, NoRewrite, NoHurry, NoClash, NoRace, Steady, StillThere}

  /** A set of states closed under steps that obey the rules. */
  ghost predicate Closed(reach: World -> bool, self: Id, hash: Bytes -> Id, rules: set<Rule>) {
    forall w: World, s: Step :: reach(w) && Lawful(w, self, hash, s, rules) ==> reach(Apply(w, self, hash, s))
  }

  ghost predicate Lawful(w: World, self: Id, hash: Bytes -> Id, s: Step, rules: set<Rule>) {
    forall r :: r in rules ==> Obeys(w, self, hash, s, r)
  }

  ghost predicate Reachable(self: Id, hash: Bytes -> Id, rules: set<Rule>, w: World) {
    exists run: seq<Step> :: Along(self, hash, run, rules) && Exec(self, hash, run) == w
  }

  ghost function Reach(self: Id, hash: Bytes -> Id, rules: set<Rule>): World -> bool {
    (w: World) => Reachable(self, hash, rules, w)
  }

  lemma ReachStep(self: Id, hash: Bytes -> Id, rules: set<Rule>, w: World, s: Step)
    requires Reachable(self, hash, rules, w) && Lawful(w, self, hash, s, rules)
    ensures Reachable(self, hash, rules, Apply(w, self, hash, s))
  {
    var run: seq<Step> :| Along(self, hash, run, rules) && Exec(self, hash, run) == w;
    assert (run + [s])[..|run|] == run;
    assert Along(self, hash, run + [s], rules) && Exec(self, hash, run + [s]) == Apply(w, self, hash, s);
  }

  lemma ReachClosed(self: Id, hash: Bytes -> Id, rules: set<Rule>)
    ensures Closed(Reach(self, hash, rules), self, hash, rules) && Reach(self, hash, rules)(START)
  {
    assert Along(self, hash, [], rules) && Exec(self, hash, []) == START;
    var reach := Reach(self, hash, rules);
    forall w: World, s: Step | reach(w) && Lawful(w, self, hash, s, rules)
      ensures reach(Apply(w, self, hash, s))
    {
      ReachStep(self, hash, rules, w, s);
    }
  }

  // ---- single steps ----

  ghost predicate Apart(w: World, hash: Bytes -> Id, rules: set<Rule>) {
    DistinctContents in rules ==> Distinct(w.folder, hash)
  }

  /** Steps that read neither the folder nor the catalog break no rule. */
  lemma Harmless(reach: World -> bool, self: Id, hash: Bytes -> Id, rules: set<Rule>, w: World, s: Step)
    requires Closed(reach, self, hash, rules) && reach(w) && rules <= EIGHT && Apart(w, hash, rules)
    requires s.Handle? || s.Expire? || s.Begin? || s.Store? || s.Record? || s.Drop? || s.Forget? || s.Delete?
    ensures reach(Apply(w, self, hash, s))
  {
    forall r | r in rules
      ensures Obeys(w, self, hash, s, r)
    {
      if r == DistinctContents {
        FolderAfter(w, self, hash, s);
      }
    }
    assert Lawful(w, self, hash, s, rules);
  }

  lemma FolderAfter(w: World, self: Id, hash: Bytes -> Id, s: Step)
    requires !s.Write? && Distinct(w.folder, hash)
    ensures Distinct(Apply(w, self, hash, s).folder, hash)
  {
    assert Apply(w, self, hash, s).folder == if s.Delete? && Enabled(w, s) then w.folder - {s.path} else w.folder;
  }

  lemma Writes(reach: World -> bool, self: Id, hash: Bytes -> Id, rules: set<Rule>, w: World, p: string, x: Bytes, more: nat)
    requires Closed(reach, self, hash, rules) && reach(w) && rules <= EIGHT
    requires DistinctContents in rules ==> Distinct(w.folder[p := x], hash)
    requires NoRewrite in rules ==> p !in w.folder
    requires NoHurry in rules ==> Gone(p) !in w.events && !Removing(w, p)
    ensures reach(w.(folder := w.folder[p := x], events := w.events + Burst(p, 1 + more)))
  {
    var s := Write(p, x, more);
    forall r | r in rules
      ensures Obeys(w, self, hash, s, r)
    {
    }
    assert Lawful(w, self, hash, s, rules);
    assert Apply(w, self, hash, s) == w.(folder := w.folder[p := x], events := w.events + Burst(p, 1 + more));
  }

  /** A step that reads the folder or the catalog. */
  lemma Reads(reach: World -> bool, self: Id, hash: Bytes -> Id, rules: set<Rule>, w: World, s: Step)
    requires Closed(reach, self, hash, rules) && reach(w) && rules <= EIGHT && Apart(w, hash, rules)
    requires s.Hash? || s.Rehash? || s.LookUp?
    requires forall r :: r in rules * {StorableTimes, NoClash, NoRace, Steady, StillThere} ==> Obeys(w, self, hash, s, r)
    ensures reach(Apply(w, self, hash, s))
  {
    forall r | r in rules
      ensures Obeys(w, self, hash, s, r)
    {
      if r == DistinctContents {
        FolderAfter(w, self, hash, s);
      }
    }
    assert Lawful(w, self, hash, s, rules);
  }

  lemma Deletes(reach: World -> bool, self: Id, hash: Bytes -> Id, rules: set<Rule>, w: World, p: string)
    requires Closed(reach, self, hash, rules) && reach(w) && rules <= EIGHT && Apart(w, hash, rules) && p in w.folder
    ensures reach(w.(folder := w.folder - {p}, events := w.events + [Gone(p)]))
  {
    Harmless(reach, self, hash, rules, w, Delete(p));
  }

  lemma TakesTouch(reach: World -> bool, self: Id, hash: Bytes -> Id, rules: set<Rule>, w: World, p: string, rest: seq<Notice>)
    requires Closed(reach, self, hash, rules) && reach(w) && rules <= EIGHT && Apart(w, hash, rules)
    requires w.events == [Touched(p)] + rest && w.removal.Idle? && p !in w.entries
    ensures reach(w.(events := rest, timers := w.timers + [Timer(p, true)], entries := w.entries[p := |w.timers|]))
  {
    Harmless(reach, self, hash, rules, w, Handle);
    assert w.events[1..] == rest;
  }

  lemma TakesGone(reach: World -> bool, self: Id, hash: Bytes -> Id, rules: set<Rule>, w: World, p: string, rest: seq<Notice>)
    requires Closed(reach, self, hash, rules) && reach(w) && rules <= EIGHT && Apart(w, hash, rules)
    requires w.events == [Gone(p)] + rest && w.removal.Idle? && (p in w.entries ==> w.entries[p] < |w.timers|)
    ensures reach(w.(events := rest, removal := Looking(p), entries := w.entries - {p},
                     timers := if p in w.entries then w.timers[w.entries[p] := Timer(p, false)] else w.timers))
  {
    Harmless(reach, self, hash, rules, w, Handle);
    assert w.events[1..] == rest;
    assert p !in w.entries ==> w.entries - {p} == w.entries;
  }

  /** The last of a list of calls moves to another stage. */
  function LastAt(calls: seq<Call>, st: Stage): seq<Call>
    requires calls != []
  {
    calls[..|calls| - 1] + [calls[|calls| - 1].(stage := st)]
  }

  lemma AdvanceLast(w: World, st: Stage)
    requires w.calls != []
    ensures Advance(w, |w.calls| - 1, st) == w.(calls := LastAt(w.calls, st))
  {
    assert w.calls[|w.calls| - 1 := w.calls[|w.calls| - 1].(stage := st)] == LastAt(w.calls, st);
  }

  lemma Expires(reach: World -> bool, self: Id, hash: Bytes -> Id, rules: set<Rule>, w: World, p: string)
    requires Closed(reach, self, hash, rules) && reach(w) && rules <= EIGHT && Apart(w, hash, rules)
    requires w.timers != [] && w.timers[|w.timers| - 1] == Timer(p, true)
    ensures reach(w.(timers := w.timers[..|w.timers| - 1] + [Timer(p, false)], calls := w.calls + [Call(p, Waiting)]))
  {
    var t := |w.timers| - 1;
    Harmless(reach, self, hash, rules, w, Expire(t));
    assert w.timers[t := Timer(p, false)] == w.timers[..t] + [Timer(p, false)];
  }

  lemma Begins(reach: World -> bool, self: Id, hash: Bytes -> Id, rules: set<Rule>, w: World, p: string)
    requires Closed(reach, self, hash, rules) && reach(w) && rules <= EIGHT && Apart(w, hash, rules)
    requires w.calls != [] && w.calls[|w.calls| - 1] == Call(p, Waiting)
    ensures reach(w.(calls := LastAt(w.calls, Begun), entries := w.entries - {p}))
  {
    Harmless(reach, self, hash, rules, w, Begin(|w.calls| - 1));
    AdvanceLast(w, Begun);
  }

  /** Nobody but the last call has a file in hand. */
  ghost predicate OnlyLast(w: World) {
    && !w.removal.Found? && !w.removal.Dropped?
    && forall c :: 0 <= c < |w.calls| - 1 ==> !w.calls[c].stage.Hashed? && !w.calls[c].stage.Stored? && !w.calls[c].stage.Rehashed?
  }

  lemma Hashes(reach: World -> bool, self: Id, hash: Bytes -> Id, rules: set<Rule>, w: World, p: string, m: int)
    requires Closed(reach, self, hash, rules) && reach(w) && rules <= EIGHT && Apart(w, hash, rules)
    requires w.calls != [] && w.calls[|w.calls| - 1] == Call(p, Begun) && p in w.folder
    requires (StorableTimes in rules ==> Encodable(m)) && (NoClash in rules ==> OnlyLast(w))
    ensures reach(w.(calls := LastAt(w.calls, Hashed(w.folder[p], m))))
  {
    Reads(reach, self, hash, rules, w, Hash(|w.calls| - 1, m));
    AdvanceLast(w, Hashed(w.folder[p], m));
  }

  /** The view after a store. */
  function StoredView(v: View, self: Id, hash: Bytes -> Id, p: string, x: Bytes, m: int, now: int): View {
    v.(db := PutLocal(v.db, self, EntryFor(hash(x), p, |x|, m), now))
  }

  lemma Stores(reach: World -> bool, self: Id, hash: Bytes -> Id, rules: set<Rule>, w: World, p: string, x: Bytes, m: int, now: int)
    requires Closed(reach, self, hash, rules) && reach(w) && rules <= EIGHT && Apart(w, hash, rules)
    requires w.calls != [] && w.calls[|w.calls| - 1] == Call(p, Hashed(x, m)) && Encodable(m)
    ensures reach(w.(calls := LastAt(w.calls, Stored(x)), view := StoredView(w.view, self, hash, p, x, m, now)))
  {
    Harmless(reach, self, hash, rules, w, Store(|w.calls| - 1, now));
    AdvanceLast(w, Stored(x));
  }

  lemma Rehashes(reach: World -> bool, self: Id, hash: Bytes -> Id, rules: set<Rule>, w: World, p: string, x: Bytes)
    requires Closed(reach, self, hash, rules) && reach(w) && rules <= EIGHT && Apart(w, hash, rules)
    requires w.calls != [] && w.calls[|w.calls| - 1] == Call(p, Stored(x))
    requires NoClash in rules ==> OnlyLast(w)
    requires (p in w.folder ==> w.folder[p] == x) && (StillThere in rules ==> p in w.folder)
    ensures reach(w.(calls := LastAt(w.calls, if p in w.folder then Rehashed(x, x) else Finished)))
  {
    Reads(reach, self, hash, rules, w, Rehash(|w.calls| - 1));
    AdvanceLast(w, if p in w.folder then Rehashed(x, x) else Finished);
  }

  lemma Records(reach: World -> bool, self: Id, hash: Bytes -> Id, rules: set<Rule>, w: World, p: string, x: Bytes)
    requires Closed(reach, self, hash, rules) && reach(w) && rules <= EIGHT && Apart(w, hash, rules)
    requires w.calls != [] && w.calls[|w.calls| - 1] == Call(p, Rehashed(x, x))
    ensures reach(w.(calls := LastAt(w.calls, Finished), view := w.view.(index := w.view.index[hash(x) := p])))
  {
    Harmless(reach, self, hash, rules, w, Record(|w.calls| - 1));
    AdvanceLast(w, Finished);
  }

  lemma LooksUp(reach: World -> bool, self: Id, hash: Bytes -> Id, rules: set<Rule>, w: World, p: string)
    requires Closed(reach, self, hash, rules) && reach(w) && rules <= EIGHT && Apart(w, hash, rules)
    requires w.removal == Looking(p)
    requires NoClash in rules ==> Obeys(w, self, hash, LookUp, NoClash)
    requires NoRace in rules ==> Obeys(w, self, hash, LookUp, NoRace)
    ensures var found := LocalByPath(w.view.db, self, p);
            reach(w.(removal := if found.None? then Idle else Found(p, found.value.fileID)))
  {
    Reads(reach, self, hash, rules, w, LookUp);
  }

  lemma Drops(reach: World -> bool, self: Id, hash: Bytes -> Id, rules: set<Rule>, w: World, p: string, f: Id, now: int)
    requires Closed(reach, self, hash, rules) && reach(w) && rules <= EIGHT && Apart(w, hash, rules)
    requires w.removal == Found(p, f)
    ensures reach(w.(removal := Dropped(p, f), view := w.view.(db := DeleteLocal(w.view.db, self, f, now))))
  {
    Harmless(reach, self, hash, rules, w, Drop(now));
  }

  lemma Forgets(reach: World -> bool, self: Id, hash: Bytes -> Id, rules: set<Rule>, w: World, p: string, f: Id)
    requires Closed(reach, self, hash, rules) && reach(w) && rules <= EIGHT && Apart(w, hash, rules)
    requires w.removal == Dropped(p, f)
    ensures reach(w.(removal := Idle, view := w.view.(index := w.view.index - {f})))
  {
    Harmless(reach, self, hash, rules, w, Forget);
  }

  // ---- whole calls ----

  /** Take a touch of p, let the timer expire and its callback begin. */
  lemma Arms(reach: World -> bool, self: Id, hash: Bytes -> Id, rules: set<Rule>, w: World, p: string, rest: seq<Notice>)
    requires Closed(reach, self, hash, rules) && reach(w) && rules <= EIGHT && Apart(w, hash, rules)
    requires w.events == [Touched(p)] + rest && w.removal.Idle? && w.entries == map[]
    ensures reach(w.(events := rest, timers := w.timers + [Timer(p, false)], calls := w.calls + [Call(p, Begun)]))
  {
    TakesTouch(reach, self, hash, rules, w, p, rest);
    var w1 := w.(events := rest, timers := w.timers + [Timer(p, true)], entries := w.entries[p := |w.timers|]);
    Expires(reach, self, hash, rules, w1, p);
    var w2 := w1.(timers := w.timers + [Timer(p, false)], calls := w.calls + [Call(p, Waiting)]);
    assert w1.timers[..|w1.timers| - 1] == w.timers;
    Begins(reach, self, hash, rules, w2, p);
    assert LastAt(w2.calls, Begun) == w.calls + [Call(p, Begun)];
    assert w2.entries - {p} == map[];
  }

  /** Write a new file, let its timer expire and its callback begin. */
  lemma WritesAndArms(reach: World -> bool, self: Id, hash: Bytes -> Id, rules: set<Rule>, w: World, p: string, x: Bytes)
    requires Closed(reach, self, hash, rules) && reach(w) && rules <= EIGHT
    requires w.events == [] && w.removal.Idle? && w.entries == map[] && (NoRewrite in rules ==> p !in w.folder)
    requires DistinctContents in rules ==> Distinct(w.folder[p := x], hash)
    ensures reach(w.(folder := w.folder[p := x], timers := w.timers + [Timer(p, false)], calls := w.calls + [Call(p, Begun)]))
  {
    Writes(reach, self, hash, rules, w, p, x, 0);
    assert w.events + Burst(p, 1) == [Touched(p)] + [];
    Arms(reach, self, hash, rules, w.(folder := w.folder[p := x], events := [Touched(p)] + []), p, []);
  }

  /** Take the last call, just begun, to its second hash. */
  lemma HashesAndStores(reach: World -> bool, self: Id, hash: Bytes -> Id, rules: set<Rule>, w: World, before: seq<Call>, p: string, t: int)
    requires Closed(reach, self, hash, rules) && reach(w) && rules <= EIGHT && Apart(w, hash, rules) && Encodable(t)
    requires w.calls == before + [Call(p, Begun)] && p in w.folder && (NoClash in rules ==> OnlyLast(w))
    ensures var x := w.folder[p];
            reach(w.(calls := before + [Call(p, Rehashed(x, x))], view := StoredView(w.view, self, hash, p, x, t, t)))
  {
    var x := w.folder[p];
    Hashes(reach, self, hash, rules, w, p, t);
    var w1 := w.(calls := before + [Call(p, Hashed(x, t))]);
    assert LastAt(w.calls, Hashed(x, t)) == w1.calls;
    Stores(reach, self, hash, rules, w1, p, x, t, t);
    var w2 := w1.(calls := before + [Call(p, Stored(x))], view := StoredView(w.view, self, hash, p, x, t, t));
    assert LastAt(w1.calls, Stored(x)) == w2.calls;
    Rehashes(reach, self, hash, rules, w2, p, x);
    assert LastAt(w2.calls, Rehashed(x, x)) == before + [Call(p, Rehashed(x, x))];
  }

  /** Nothing is under way but the given events, and the debouncer is empty. */
  predicate Still(w: World, events: seq<Notice>) {
    && w.events == events && w.removal.Idle? && w.entries == map[]
    && (forall t :: 0 <= t < |w.timers| ==> !w.timers[t].armed)
    && (forall c :: 0 <= c < |w.calls| ==> w.calls[c].stage.Finished?)
  }

  /** Take a touch of p and let its callback index the file. */
  lemma Indexes(reach: World -> bool, self: Id, hash: Bytes -> Id, rules: set<Rule>, w: World, p: string, rest: seq<Notice>, t: int)
    returns (w': World)
    requires Closed(reach, self, hash, rules) && reach(w) && rules <= EIGHT && Apart(w, hash, rules) && Encodable(t)
    requires Still(w, [Touched(p)] + rest) && p in w.folder
    ensures reach(w') && Still(w', rest) && w'.folder == w.folder
    ensures w'.view == AfterIndex(w.view, self, hash, p, w.folder[p], Some(w.folder[p]), t, t)
  {
    var x := w.folder[p];
    Arms(reach, self, hash, rules, w, p, rest);
    var w1 := w.(events := rest, timers := w.timers + [Timer(p, false)], calls := w.calls + [Call(p, Begun)]);
    HashesAndStores(reach, self, hash, rules, w1, w.calls, p, t);
    var w2 := w1.(calls := w.calls + [Call(p, Rehashed(x, x))], view := StoredView(w.view, self, hash, p, x, t, t));
    Records(reach, self, hash, rules, w2, p, x);
    w' := w2.(calls := LastAt(w2.calls, Finished), view := w2.view.(index := w2.view.index[hash(x) := p]));
  }

  /** Write a new file and let it be indexed, from rest to rest. */
  lemma WritesAndIndexes(reach: World -> bool, self: Id, hash: Bytes -> Id, rules: set<Rule>, w: World, p: string, x: Bytes, t: int)
    returns (w': World)
    requires Closed(reach, self, hash, rules) && reach(w) && rules <= EIGHT && Encodable(t) && Still(w, [])
    requires (NoRewrite in rules ==> p !in w.folder) && (DistinctContents in rules ==> Distinct(w.folder[p := x], hash))
    ensures reach(w') && Still(w', []) && w'.folder == w.folder[p := x]
    ensures w'.view == AfterIndex(w.view, self, hash, p, x, Some(x), t, t)
  {
    Writes(reach, self, hash, rules, w, p, x, 0);
    var w1 := w.(folder := w.folder[p := x], events := w.events + Burst(p, 1));
    assert w1.events == [Touched(p)] + [];
    w' := Indexes(reach, self, hash, rules, w1, p, [], t);
  }

  /** A removal that finds an entry, with no call under way. */
  lemma Removes(reach: World -> bool, self: Id, hash: Bytes -> Id, rules: set<Rule>, w: World, p: string, rest: seq<Notice>)
    returns (w': World)
    requires Closed(reach, self, hash, rules) && reach(w) && rules <= EIGHT && Apart(w, hash, rules)
    requires Still(w, [Gone(p)] + rest) && LocalByPath(w.view.db, self, p).Some?
    ensures reach(w') && Still(w', rest) && w'.folder == w.folder && w'.view == AfterRemove(w.view, self, p, 0)
  {
    var f := LocalByPath(w.view.db, self, p).value.fileID;
    TakesGone(reach, self, hash, rules, w, p, rest);
    var w1 := w.(events := rest, removal := Looking(p));
    assert w.entries - {p} == w.entries;
    LooksUp(reach, self, hash, rules, w1, p);
    var w2 := w1.(removal := Found(p, f));
    Drops(reach, self, hash, rules, w2, p, f, 0);
    var w3 := w2.(removal := Dropped(p, f), view := w.view.(db := DeleteLocal(w.view.db, self, f, 0)));
    Forgets(reach, self, hash, rules, w3, p, f);
    w' := w3.(removal := Idle, view := w3.view.(index := w3.view.index - {f}));
  }

  /** Delete a file at rest and let the event loop turn to it. */
  lemma DeletesAndLooks(reach: World -> bool, self: Id, hash: Bytes -> Id, rules: set<Rule>, w: World, p: string)
    requires Closed(reach, self, hash, rules) && reach(w) && rules <= EIGHT && Apart(w, hash, rules)
    requires p in w.folder && w.events == [] && w.removal.Idle? && w.entries == map[]
    ensures reach(w.(folder := w.folder - {p}, removal := Looking(p)))
  {
    Deletes(reach, self, hash, rules, w, p);
    var w1 := w.(folder := w.folder - {p}, events := [] + [Gone(p)]);
    assert [] + [Gone(p)] == [Gone(p)] + [];
    TakesGone(reach, self, hash, rules, w1, p, []);
    assert w1.entries - {p} == map[];
  }

  // ---- what is not shown ----

  lemma StaleNotShown(w: World, self: Id, hash: Bytes -> Id, f: Id, p: string)
    requires At(w.view, f, p) || LiveAs(w.view.db, self, f, p)
    requires p in w.folder ==> hash(w.folder[p]) != f
    ensures !Shows(w, self, hash)
  {
  }

  lemma MissingNotShown(w: World, self: Id, hash: Bytes -> Id, p: string)
    requires p in w.folder && !At(w.view, hash(w.folder[p]), p)
    ensures !Shows(w, self, hash)
  {
    assert p in w.folder && hash(w.folder[p]) == hash(w.folder[p]);
  }

  lemma EmptyAgrees(self: Id)
    ensures Valid(START.view.db) && Agree(START.view, self)
  {
    forall f: Id
      ensures !LiveAt(EMPTY_DB, self, f)
    {
    }
  }
}
