/** Every file of the folder ends up listed, however callbacks and removals interleave, as
    long as no two of them have one file in hand at once. */
module FolderComplete {
  import opened Basics
  import opened Catalog
  import opened Watcher
  import opened Folder

  // ---- the debouncer's map ----

  ghost predicate EntriesOk(w: World) {
    forall p :: p in w.entries ==> w.entries[p] < |w.timers| && w.timers[w.entries[p]].path == p
  }

  lemma EntriesStep(w: World, self: Id, hash: Bytes -> Id, s: Step)
    requires EntriesOk(w)
    ensures EntriesOk(Apply(w, self, hash, s))
  {
  }

  lemma {:induction false} AlwaysEntriesOk(self: Id, hash: Bytes -> Id, run: seq<Step>)
    ensures EntriesOk(Exec(self, hash, run))
  {
    if run != [] {
      AlwaysEntriesOk(self, hash, run[..|run| - 1]);
      EntriesStep(Exec(self, hash, run[..|run| - 1]), self, hash, run[|run| - 1]);
    }
  }

  // ---- what is being done for a path ----

  /** A touch of p is queued with no removal of p behind it. */
  ghost predicate Pending(events: seq<Notice>, p: string) {
    exists i :: 0 <= i < |events| && events[i] == Touched(p) && Gone(p) !in events[i..]
  }

  predicate Armed(w: World, p: string) {
    exists t :: 0 <= t < |w.timers| && w.timers[t] == Timer(p, true)
  }

  /** A callback of p that has not read the file yet. */
  predicate Fresh(w: World, p: string) {
    exists c :: 0 <= c < |w.calls| && w.calls[c].path == p && (w.calls[c].stage.Waiting? || w.calls[c].stage.Begun?)
  }

  /** Callback c of p works on the content with hash h. */
  predicate OnTrack(w: World, self: Id, hash: Bytes -> Id, c: int, p: string, h: Id) {
    && 0 <= c < |w.calls| && w.calls[c].path == p
    && match w.calls[c].stage
       case Hashed(x, m) => hash(x) == h && Encodable(m)
       case Stored(x) => hash(x) == h && InCatalog(w.view, self, h) == Some(p)
       case Rehashed(x, y) => hash(x) == h && hash(y) == h && InCatalog(w.view, self, h) == Some(p)
       case _ => false
  }

  predicate Working(w: World, self: Id, hash: Bytes -> Id, p: string, h: Id) {
    exists c :: 0 <= c < |w.calls| && OnTrack(w, self, hash, c, p, h)
  }

  /** The file is listed in both, and only callbacks of p have it in hand. */
  ghost predicate Settled(w: World, self: Id, hash: Bytes -> Id, p: string, h: Id) {
    && InCatalog(w.view, self, h) == Some(p) && InIndex(w.view, h) == Some(p)
    && forall c :: Holds(w, hash, c, h) ==> c >= 0 && w.calls[c].path == p
  }

  ghost predicate Work(w: World, self: Id, hash: Bytes -> Id, p: string, h: Id) {
    Armed(w, p) || Fresh(w, p) || Working(w, self, hash, p, h) || Settled(w, self, hash, p, h)
  }

  ghost predicate Cared(w: World, self: Id, hash: Bytes -> Id, p: string)
    requires p in w.folder
  {
    || Pending(w.events, p)
    || (Gone(p) !in w.events && !Removing(w, p) && Work(w, self, hash, p, hash(w.folder[p])))
  }

  ghost predicate Complete(w: World, self: Id, hash: Bytes -> Id) {
    forall p :: p in w.folder ==> Cared(w, self, hash, p)
  }

  // ---- the queue ----

  lemma PendingAppend(a: seq<Notice>, b: seq<Notice>, p: string)
    requires Gone(p) !in b
    requires Pending(a, p) || Touched(p) in b
    ensures Pending(a + b, p)
  {
    if Touched(p) in b {
      var i :| 0 <= i < |b| && b[i] == Touched(p);
      assert (a + b)[|a| + i..] == b[i..];
    } else {
      var i :| 0 <= i < |a| && a[i] == Touched(p) && Gone(p) !in a[i..];
      assert (a + b)[i..] == a[i..] + b;
    }
  }

  lemma PendingRest(events: seq<Notice>, p: string)
    requires events != [] && Pending(events, p)
    ensures Pending(events[1..], p) || (events[0] == Touched(p) && Gone(p) !in events[1..])
  {
    var i :| 0 <= i < |events| && events[i] == Touched(p) && Gone(p) !in events[i..];
    if i > 0 {
      assert events[1..][i - 1..] == events[i..];
    }
  }

  // ---- steps of timers, callbacks and the removal ----

  /** The step changes neither the folder nor the queue. */
  predicate Inner(s: Step) {
    !s.Write? && !s.Delete? && !s.Handle?
  }

  lemma InnerFrame(w: World, self: Id, hash: Bytes -> Id, s: Step, p: string)
    requires Inner(s)
    ensures var w' := Apply(w, self, hash, s);
            w'.folder == w.folder && w'.events == w.events && (Removing(w', p) ==> Removing(w, p))
  {
  }

  lemma ArmedStep(w: World, self: Id, hash: Bytes -> Id, s: Step, p: string)
    requires Inner(s) && Armed(w, p)
    ensures var w' := Apply(w, self, hash, s); Armed(w', p) || Fresh(w', p)
  {
    var t :| 0 <= t < |w.timers| && w.timers[t] == Timer(p, true);
    var w' := Apply(w, self, hash, s);
    if s == Expire(t) {
      assert w'.calls[|w.calls|] == Call(p, Waiting);
    } else {
      assert w'.timers[t] == Timer(p, true);
    }
  }

  lemma FreshStep(w: World, self: Id, hash: Bytes -> Id, s: Step, p: string)
    requires Inner(s) && Fresh(w, p) && p in w.folder && Obeys(w, self, hash, s, StorableTimes)
    ensures var w' := Apply(w, self, hash, s); Fresh(w', p) || Working(w', self, hash, p, hash(w.folder[p]))
  {
    var c :| 0 <= c < |w.calls| && w.calls[c].path == p && (w.calls[c].stage.Waiting? || w.calls[c].stage.Begun?);
    var w' := Apply(w, self, hash, s);
    if s.Hash? && s.call == c && Enabled(w, s) {
      assert OnTrack(w', self, hash, c, p, hash(w.folder[p]));
    } else {
      assert w'.calls[c].path == p && (w'.calls[c].stage.Waiting? || w'.calls[c].stage.Begun?);
    }
  }

  /** Other calls do not touch the entries of a file that call c has in hand. */
  lemma OthersKeep(w: World, self: Id, hash: Bytes -> Id, s: Step, c: int, h: Id)
    requires Valid(w.view.db) && Unique(w, hash) && Holds(w, hash, c, h)
    requires CatalogWrite(w, hash, s).Some? || IndexWrite(w, hash, s).Some? ==> Actor(s) != c
    ensures var v := Apply(w, self, hash, s).view;
            InCatalog(v, self, h) == InCatalog(w.view, self, h) && InIndex(v, h) == InIndex(w.view, h)
  {
    ViewStep(w, self, hash, s, h);
    WriterHolds(w, hash, s);
  }

  /** A callback that is not the actor keeps its stage or moves on in its own step. */
  lemma OnTrackStep(w: World, self: Id, hash: Bytes -> Id, s: Step, c: int, p: string)
    requires Valid(w.view.db) && Unique(w, hash) && Inner(s) && p in w.folder
    requires OnTrack(w, self, hash, c, p, hash(w.folder[p]))
    ensures var w', h := Apply(w, self, hash, s), hash(w.folder[p]);
            OnTrack(w', self, hash, c, p, h) || Settled(w', self, hash, p, h)
  {
    var w', h := Apply(w, self, hash, s), hash(w.folder[p]);
    assert Holds(w, hash, c, h);
    if !Enabled(w, s) {
      assert w' == w;
    } else if s.Store? && s.call == c {
      ViewStep(w, self, hash, s, h);
    } else if s.Record? && s.call == c {
      ViewStep(w, self, hash, s, h);
      forall d: int | Holds(w', hash, d, h)
        ensures d >= 0 && w'.calls[d].path == p
      {
        HoldStep(w, self, hash, s, d, h);
      }
    } else {
      OthersKeep(w, self, hash, s, c, h);
      OtherCall(w, self, hash, s, c);
    }
  }

  lemma OtherCall(w: World, self: Id, hash: Bytes -> Id, s: Step, c: nat)
    requires c < |w.calls| && Inner(s)
    requires !(s.Store? && s.call == c) && !(s.Record? && s.call == c)
    ensures var w' := Apply(w, self, hash, s);
            && c < |w'.calls| && w'.calls[c].path == w.calls[c].path
            && (w.calls[c].stage.Hashed? || w.calls[c].stage.Rehashed? ==> w'.calls[c] == w.calls[c])
            && (w.calls[c].stage.Stored? && w.calls[c].path in w.folder ==>
                  w'.calls[c] == w.calls[c]
                  || w'.calls[c].stage == Rehashed(w.calls[c].stage.content, w.folder[w.calls[c].path]))
  {
  }

  lemma SettledStep(w: World, self: Id, hash: Bytes -> Id, s: Step, p: string)
    requires Valid(w.view.db) && Inner(s) && p in w.folder && Distinct(w.folder, hash) && !Removing(w, p)
    requires Settled(w, self, hash, p, hash(w.folder[p]))
    ensures Settled(Apply(w, self, hash, s), self, hash, p, hash(w.folder[p]))
  {
    var w', h := Apply(w, self, hash, s), hash(w.folder[p]);
    SettledView(w, self, hash, s, p, h);
    forall c: int | Holds(w', hash, c, h)
      ensures c >= 0 && w'.calls[c].path == p
    {
      HoldStep(w, self, hash, s, c, h);
      if !Holds(w, hash, c, h) {
        NewHolder(w, self, hash, s, c, p);
      } else {
        PathStays(w, self, hash, s, c);
      }
    }
  }

  lemma SettledView(w: World, self: Id, hash: Bytes -> Id, s: Step, p: string, h: Id)
    requires Valid(w.view.db) && Settled(w, self, hash, p, h)
    ensures var v := Apply(w, self, hash, s).view; InCatalog(v, self, h) == Some(p) && InIndex(v, h) == Some(p)
  {
    ViewStep(w, self, hash, s, h);
    WriterHolds(w, hash, s);
  }

  lemma PathStays(w: World, self: Id, hash: Bytes -> Id, s: Step, c: nat)
    requires c < |w.calls| && Inner(s)
    ensures c < |Apply(w, self, hash, s).calls| && Apply(w, self, hash, s).calls[c].path == w.calls[c].path
  {
  }

  /** Only p has the content of p, and only a removal of p would find its entry. */
  lemma NewHolder(w: World, self: Id, hash: Bytes -> Id, s: Step, c: int, p: string)
    requires Valid(w.view.db) && Inner(s) && p in w.folder && Distinct(w.folder, hash) && !Removing(w, p)
    requires InCatalog(w.view, self, hash(w.folder[p])) == Some(p)
    requires Acquires(w, self, hash, s) == Some((c, hash(w.folder[p])))
    ensures c >= 0 && Apply(w, self, hash, s).calls[c].path == p
  {
    if s.LookUp? {
      LookupByPath(w.view.db, self, w.removal.path);
    }
  }

  lemma WorkStep(w: World, self: Id, hash: Bytes -> Id, s: Step, p: string)
    requires Valid(w.view.db) && Unique(w, hash) && Distinct(w.folder, hash)
    requires Inner(s) && Obeys(w, self, hash, s, StorableTimes)
    requires p in w.folder && !Removing(w, p) && Work(w, self, hash, p, hash(w.folder[p]))
    ensures Work(Apply(w, self, hash, s), self, hash, p, hash(w.folder[p]))
  {
    var h := hash(w.folder[p]);
    if Armed(w, p) {
      ArmedStep(w, self, hash, s, p);
    } else if Fresh(w, p) {
      FreshStep(w, self, hash, s, p);
    } else if Working(w, self, hash, p, h) {
      var c :| 0 <= c < |w.calls| && OnTrack(w, self, hash, c, p, h);
      OnTrackStep(w, self, hash, s, c, p);
    } else {
      SettledStep(w, self, hash, s, p);
    }
  }

  // ---- steps of the outside world and the event loop ----

  /** Work on p depends on timers of p, on the calls and on the view only. */
  lemma SameWork(w: World, w': World, self: Id, hash: Bytes -> Id, p: string, h: Id)
    requires Work(w, self, hash, p, h)
    requires w'.calls == w.calls && w'.view == w.view && (Armed(w, p) ==> Armed(w', p))
    requires !(w.removal.Found? || w.removal.Dropped?) ==> !(w'.removal.Found? || w'.removal.Dropped?)
    requires w.removal.Found? || w.removal.Dropped? ==> w'.removal == w.removal
    ensures Work(w', self, hash, p, h)
  {
    if Working(w, self, hash, p, h) {
      var c :| 0 <= c < |w.calls| && OnTrack(w, self, hash, c, p, h);
      assert OnTrack(w', self, hash, c, p, h);
    } else if Fresh(w, p) {
      assert Fresh(w', p);
    } else if Settled(w, self, hash, p, h) {
      forall c: int | Holds(w', hash, c, h)
        ensures c >= 0 && w'.calls[c].path == p
      {
        assert Holds(w, hash, c, h);
      }
    }
  }

  lemma CompleteWrite(w: World, self: Id, hash: Bytes -> Id, p: string, x: Bytes, more: nat)
    requires Complete(w, self, hash)
    ensures Complete(Apply(w, self, hash, Write(p, x, more)), self, hash)
  {
    var w' := Apply(w, self, hash, Write(p, x, more));
    forall q | q in w'.folder
      ensures Cared(w', self, hash, q)
    {
      if q == p {
        assert Burst(p, 1 + more)[0] == Touched(p);
        PendingAppend(w.events, Burst(p, 1 + more), q);
      } else {
        assert Cared(w, self, hash, q);
        CaredWrite(w, self, hash, p, x, more, q);
      }
    }
  }

  lemma CaredWrite(w: World, self: Id, hash: Bytes -> Id, p: string, x: Bytes, more: nat, q: string)
    requires q in w.folder && q != p && Cared(w, self, hash, q)
    ensures var w' := Apply(w, self, hash, Write(p, x, more)); q in w'.folder && Cared(w', self, hash, q)
  {
    var w', b := Apply(w, self, hash, Write(p, x, more)), Burst(p, 1 + more);
    assert w'.events == w.events + b;
    if Pending(w.events, q) {
      PendingAppend(w.events, b, q);
    } else {
      SameWork(w, w', self, hash, q, hash(w.folder[q]));
    }
  }

  lemma CompleteDelete(w: World, self: Id, hash: Bytes -> Id, p: string)
    requires Complete(w, self, hash) && p in w.folder
    ensures Complete(Apply(w, self, hash, Delete(p)), self, hash)
  {
    var w' := Apply(w, self, hash, Delete(p));
    forall q | q in w'.folder
      ensures Cared(w', self, hash, q)
    {
      assert Cared(w, self, hash, q);
      if Pending(w.events, q) {
        PendingAppend(w.events, [Gone(p)], q);
      } else {
        SameWork(w, w', self, hash, q, hash(w.folder[q]));
      }
    }
  }

  lemma TakeArms(w: World, self: Id, hash: Bytes -> Id, q: string)
    requires EntriesOk(w) && Enabled(w, Handle)
    ensures var w' := Apply(w, self, hash, Handle);
            && w'.calls == w.calls && w'.view == w.view && w'.folder == w.folder && w'.events == w.events[1..]
            && (w.events[0] == Touched(q) ==> Armed(w', q))
            && (w.events[0] != Gone(q) && Armed(w, q) ==> Armed(w', q))
            && (w.events[0].Touched? ==> w'.removal.Idle?)
            && (w.events[0].Gone? ==> w'.removal == Looking(w.events[0].path))
  {
    var w' := Apply(w, self, hash, Handle);
    var p := w.events[0].path;
    if w.events[0].Touched? {
      var t := if p in w.entries then w.entries[p] else |w.timers|;
      assert w'.timers[t] == Timer(p, true);
    }
    if Armed(w, q) && w.events[0] != Gone(q) {
      var t :| 0 <= t < |w.timers| && w.timers[t] == Timer(q, true);
      assert w'.timers[t] == Timer(q, true);
    }
  }

  lemma CompleteHandle(w: World, self: Id, hash: Bytes -> Id)
    requires EntriesOk(w) && Complete(w, self, hash) && Enabled(w, Handle)
    ensures Complete(Apply(w, self, hash, Handle), self, hash)
  {
    var w' := Apply(w, self, hash, Handle);
    forall q | q in w'.folder
      ensures Cared(w', self, hash, q)
    {
      TakeArms(w, self, hash, q);
      assert Cared(w, self, hash, q);
      if Pending(w.events, q) {
        PendingRest(w.events, q);
      } else {
        assert w.events[0] in w.events;
        SameWork(w, w', self, hash, q, hash(w.folder[q]));
      }
    }
  }

  lemma CompleteInner(w: World, self: Id, hash: Bytes -> Id, s: Step)
    requires Valid(w.view.db) && Unique(w, hash) && Distinct(w.folder, hash)
    requires Inner(s) && Obeys(w, self, hash, s, StorableTimes) && Complete(w, self, hash)
    ensures Complete(Apply(w, self, hash, s), self, hash)
  {
    var w' := Apply(w, self, hash, s);
    forall q | q in w'.folder
      ensures Cared(w', self, hash, q)
    {
      InnerFrame(w, self, hash, s, q);
      assert Cared(w, self, hash, q);
      if !Pending(w.events, q) {
        WorkStep(w, self, hash, s, q);
      }
    }
  }

  lemma {:induction false} AlwaysComplete(self: Id, hash: Bytes -> Id, run: seq<Step>, rules: set<Rule>)
    requires Along(self, hash, run, rules) && {DistinctContents, StorableTimes, NoClash} <= rules
    ensures Complete(Exec(self, hash, run), self, hash)
  {
    if run != [] {
      var init, s := run[..|run| - 1], run[|run| - 1];
      var w := Exec(self, hash, init);
      AlwaysComplete(self, hash, init, rules);
      AlwaysEntriesOk(self, hash, init);
      AlwaysValid(self, hash, init);
      AlwaysUnique(self, hash, init, rules);
      AlongDistinct(self, hash, init, rules);
      assert Obeys(w, self, hash, s, StorableTimes);
      if Enabled(w, s) {
        match s
        case Write(p, x, more) => CompleteWrite(w, self, hash, p, x, more);
        case Delete(p) => CompleteDelete(w, self, hash, p);
        case Handle => CompleteHandle(w, self, hash);
        case _ => CompleteInner(w, self, hash, s);
      }
    }
  }

  /** If contents present together are distinct, times can be stored and no two calls have
      one file in hand at once, then once nothing is left to do every file of the folder
      is listed, however often files were rewritten, deleted or replaced. */
  lemma EveryFileIndexed(self: Id, hash: Bytes -> Id, run: seq<Step>, rules: set<Rule>, p: string)
    requires Along(self, hash, run, rules) && {DistinctContents, StorableTimes, NoClash} <= rules
    requires Quiet(Exec(self, hash, run)) && p in Exec(self, hash, run).folder
    ensures var w := Exec(self, hash, run);
            At(w.view, hash(w.folder[p]), p) && LiveAs(w.view.db, self, hash(w.folder[p]), p)
  {
    var w := Exec(self, hash, run);
    AlwaysComplete(self, hash, run, rules);
    QuietSettled(w, self, hash, p);
  }

  lemma QuietSettled(w: World, self: Id, hash: Bytes -> Id, p: string)
    requires Quiet(w) && p in w.folder && Cared(w, self, hash, p)
    ensures Settled(w, self, hash, p, hash(w.folder[p]))
  {
  }
}
