/** The debouncer's timers when a callback may wait for its lock: exactly when every
    pending timer is the one in the map, so that there is at most one for each path and a
    removal stops it. */
module FolderTimers {
  import opened Basics
  import opened Folder
  import opened FolderComplete
  import opened FolderPaths

  /** Every armed timer is the one its path has in the map. */
  ghost predicate Tracked(w: World) {
    forall t :: 0 <= t < |w.timers| && w.timers[t].armed ==> w.timers[t].path in w.entries && w.entries[w.timers[t].path] == t
  }

  ghost predicate AlwaysTracked(self: Id, hash: Bytes -> Id, run: seq<Step>) {
    Tracked(Exec(self, hash, run)) && (run != [] ==> AlwaysTracked(self, hash, run[..|run| - 1]))
  }

  /** A callback gets the lock after its timer was reset, and deletes the entry of the
      timer that is pending again. */
  predicate Untracks(w: World, s: Step) {
    && s.Begin? && Enabled(w, s)
    && var p := w.calls[s.call].path;
       p in w.entries && w.entries[p] < |w.timers| && w.timers[w.entries[p]].armed
  }

  ghost predicate NeverUntracks(self: Id, hash: Bytes -> Id, run: seq<Step>) {
    run != [] ==>
      NeverUntracks(self, hash, run[..|run| - 1]) && !Untracks(Exec(self, hash, run[..|run| - 1]), run[|run| - 1])
  }

  lemma TrackedHandle(w: World, self: Id, hash: Bytes -> Id)
    requires EntriesOk(w) && Tracked(w) && Enabled(w, Handle)
    ensures Tracked(Apply(w, self, hash, Handle))
  {
  }

  lemma TrackedStep(w: World, self: Id, hash: Bytes -> Id, s: Step)
    requires EntriesOk(w) && Tracked(w)
    ensures Tracked(Apply(w, self, hash, s)) <==> !Untracks(w, s)
  {
    var w' := Apply(w, self, hash, s);
    if s.Handle? && Enabled(w, s) {
      TrackedHandle(w, self, hash);
    } else if Untracks(w, s) {
      var t := w.entries[w.calls[s.call].path];
      assert w'.timers[t].armed && w'.timers[t].path !in w'.entries;
    }
  }

  /** All along a run every pending timer is the one in the map if and only if no callback
      gets the lock after an event has reset its timer. */
  lemma {:induction false} TrackedIffNeverUntracked(self: Id, hash: Bytes -> Id, run: seq<Step>)
    ensures AlwaysTracked(self, hash, run) <==> NeverUntracks(self, hash, run)
  {
    if run != [] {
      var init := run[..|run| - 1];
      TrackedIffNeverUntracked(self, hash, init);
      if AlwaysTracked(self, hash, init) {
        AlwaysEntriesOk(self, hash, init);
        TrackedStep(Exec(self, hash, init), self, hash, run[|run| - 1]);
      }
    }
  }

  /** Then at most one timer of a path is pending, and a removal leaves none. */
  lemma TrackedMeansOne(w: World, self: Id, hash: Bytes -> Id, t: nat, u: nat)
    requires EntriesOk(w) && Tracked(w)
    ensures t < |w.timers| && u < |w.timers| && w.timers[t].armed && w.timers[u].armed && w.timers[t].path == w.timers[u].path ==> t == u
    ensures Enabled(w, Handle) && w.events[0].Gone? ==> !Armed(Apply(w, self, hash, Handle), w.events[0].path)
  {
  }

  /** A touch while the callback waits, and another one after it has begun: two timers of
      one path are pending. */
  lemma TwoPending(self: Id, hash: Bytes -> Id, p: string, x: Bytes) returns (w: World)
    ensures Reachable(self, hash, SIX, w)
    ensures w.timers == [Timer(p, true), Timer(p, true)]
  {
    var reach := Reach(self, hash, SIX);
    ReachClosed(self, hash, SIX);
    assert START.folder[p := x] == map[p := x];
    Writes(reach, self, hash, SIX, START, p, x, 2);
    var w1 := START.(folder := map[p := x], events := [Touched(p)] + ([Touched(p)] + [Touched(p)]));
    assert START.events + Burst(p, 3) == w1.events;
    TakesTouch(reach, self, hash, SIX, w1, p, [Touched(p)] + [Touched(p)]);
    var w2 := w1.(events := [Touched(p)] + [Touched(p)], timers := [Timer(p, true)], entries := map[p := 0]);
    assert w1.timers + [Timer(p, true)] == w2.timers && w1.entries[p := 0] == w2.entries;
    Expires(reach, self, hash, SIX, w2, p);
    var w3 := w2.(timers := [Timer(p, false)], calls := [Call(p, Waiting)]);
    assert w2.timers[..0] + [Timer(p, false)] == w3.timers && w2.calls + [Call(p, Waiting)] == w3.calls;
    w := ResetWhileWaiting(reach, self, hash, w3, p);
  }

  lemma ResetWhileWaiting(reach: World -> bool, self: Id, hash: Bytes -> Id, w: World, p: string) returns (w': World)
    requires Closed(reach, self, hash, SIX) && reach(w) && Distinct(w.folder, hash)
    requires w.events == [Touched(p)] + [Touched(p)] && w.timers == [Timer(p, false)] && w.entries == map[p := 0]
    requires w.calls == [Call(p, Waiting)] && w.removal.Idle?
    ensures reach(w') && w'.timers == [Timer(p, true), Timer(p, true)]
  {
    Harmless(reach, self, hash, SIX, w, Handle);
    var w1 := w.(events := [Touched(p)] + [], timers := [Timer(p, true)]);
    assert w.events[1..] == w1.events && w.timers[0 := Timer(p, true)] == w1.timers;
    assert Apply(w, self, hash, Handle) == w1;
    Begins(reach, self, hash, SIX, w1, p);
    var w2 := w1.(calls := [Call(p, Begun)], entries := map[]);
    assert LastAt(w1.calls, Begun) == w2.calls && w1.entries - {p} == w2.entries;
    TakesTouch(reach, self, hash, SIX, w2, p, []);
    w' := w2.(events := [], timers := [Timer(p, true)] + [Timer(p, true)], entries := map[][p := 1]);
  }
}
