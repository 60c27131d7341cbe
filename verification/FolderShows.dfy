/** Nothing but the files of the folder stays listed: when, exactly, a path is listed once,
    and when catalog and index are the folder once nothing is left to do. */
module FolderShows {
  import opened Basics
  import opened Catalog
  import opened Watcher
  import opened Folder
  import opened FolderComplete

  // ---- one listing per path ----

  ghost predicate OnePerPath(v: View, self: Id) {
    forall f: Id, g: Id, p: string :: LiveAs(v.db, self, f, p) && LiveAs(v.db, self, g, p) ==> f == g
  }

  ghost predicate AlwaysOnePerPath(self: Id, hash: Bytes -> Id, run: seq<Step>) {
    && OnePerPath(Exec(self, hash, run).view, self)
    && (run != [] ==> AlwaysOnePerPath(self, hash, run[..|run| - 1]))
  }

  lemma LiveStep(w: World, self: Id, hash: Bytes -> Id, s: Step, f: Id, p: string)
    requires Valid(w.view.db)
    ensures var cw := CatalogWrite(w, hash, s);
            LiveAs(Apply(w, self, hash, s).view.db, self, f, p) <==>
              if cw.Some? && cw.value.file == f then cw.value.path == Some(p) else LiveAs(w.view.db, self, f, p)
  {
    ViewStep(w, self, hash, s, f);
  }

  lemma OneStep(w: World, self: Id, hash: Bytes -> Id, s: Step)
    requires Valid(w.view.db) && OnePerPath(w.view, self)
    ensures OnePerPath(Apply(w, self, hash, s).view, self) <==> Obeys(w, self, hash, s, NoRelist)
  {
    var v := Apply(w, self, hash, s).view;
    if Obeys(w, self, hash, s, NoRelist) {
      forall f: Id, g: Id, p: string | LiveAs(v.db, self, f, p) && LiveAs(v.db, self, g, p)
        ensures f == g
      {
        LiveStep(w, self, hash, s, f, p);
        LiveStep(w, self, hash, s, g, p);
      }
    } else {
      var p, h := w.calls[s.call].path, hash(w.calls[s.call].stage.content);
      var f: Id :| LiveAs(w.view.db, self, f, p) && f != h;
      LiveStep(w, self, hash, s, f, p);
      LiveStep(w, self, hash, s, h, p);
    }
  }

  /** In every interleaving, no path is listed twice along a run if and only if no callback
      stores a path while it is listed under other content. */
  lemma {:induction false} OnePerPathIffNoRelist(self: Id, hash: Bytes -> Id, run: seq<Step>)
    ensures AlwaysOnePerPath(self, hash, run) <==> Along(self, hash, run, {NoRelist})
  {
    if run == [] {
      forall f: Id
        ensures !LiveAt(EMPTY_DB, self, f)
      {
      }
    } else {
      var init := run[..|run| - 1];
      OnePerPathIffNoRelist(self, hash, init);
      if AlwaysOnePerPath(self, hash, init) {
        AlwaysValid(self, hash, init);
        OneStep(Exec(self, hash, init), self, hash, run[|run| - 1]);
      }
    }
  }

  lemma AlongOnePerPath(self: Id, hash: Bytes -> Id, run: seq<Step>, rules: set<Rule>)
    requires Along(self, hash, run, rules) && NoRelist in rules
    ensures OnePerPath(Exec(self, hash, run).view, self)
  {
    AlongFewer(self, hash, run, rules, {NoRelist});
    OnePerPathIffNoRelist(self, hash, run);
  }

  // ---- paths that left the folder ----

  /** The removal of p has not looked p up yet. */
  predicate Coming(w: World, p: string) {
    Gone(p) in w.events || w.removal == Looking(p)
  }

  /** A listed path that left the folder will be removed. */
  ghost predicate Reported(w: World, self: Id) {
    forall f: Id, p: string :: LiveAs(w.view.db, self, f, p) && p !in w.folder ==> Coming(w, p) || w.removal == Found(p, f)
  }

  /** So will a path that left the folder and is still to be stored. */
  ghost predicate Doomed(w: World) {
    forall c :: 0 <= c < |w.calls| && w.calls[c].stage.Hashed? && w.calls[c].path !in w.folder ==> Coming(w, w.calls[c].path)
  }

  lemma ComingStep(w: World, self: Id, hash: Bytes -> Id, s: Step, p: string)
    ensures var w' := Apply(w, self, hash, s);
            && (Coming(w, p) ==> Coming(w', p) || (s.LookUp? && w.removal == Looking(p)))
            && (p !in w'.folder && p in w.folder ==> Coming(w', p))
            && (w.removal.Found? ==> w'.removal == w.removal || (s.Drop? && w'.removal.Dropped?))
  {
    var w' := Apply(w, self, hash, s);
    if s == Delete(p) && p in w.folder {
      assert w'.events[|w.events|] == Gone(p);
    }
    if Gone(p) in w.events && s.Handle? && Enabled(w, s) && w.events[0] != Gone(p) {
      assert Gone(p) in w.events[1..];
      assert w'.events == w.events[1..];
    }
  }

  lemma ReportedStep(w: World, self: Id, hash: Bytes -> Id, s: Step)
    requires Valid(w.view.db) && OnePerPath(w.view, self) && Reported(w, self) && Doomed(w)
    ensures Reported(Apply(w, self, hash, s), self)
  {
    var w' := Apply(w, self, hash, s);
    forall f: Id, p: string | LiveAs(w'.view.db, self, f, p) && p !in w'.folder
      ensures Coming(w', p) || w'.removal == Found(p, f)
    {
      LiveStep(w, self, hash, s, f, p);
      ComingStep(w, self, hash, s, p);
      if s.LookUp? && w.removal == Looking(p) {
        LookupByPath(w.view.db, self, p);
      }
    }
  }

  lemma DoomedStep(w: World, self: Id, hash: Bytes -> Id, s: Step)
    requires Doomed(w) && Obeys(w, self, hash, s, NoRace)
    ensures Doomed(Apply(w, self, hash, s))
  {
    var w' := Apply(w, self, hash, s);
    forall c | 0 <= c < |w'.calls| && w'.calls[c].stage.Hashed? && w'.calls[c].path !in w'.folder
      ensures Coming(w', w'.calls[c].path)
    {
      HashedBefore(w, self, hash, s, c);
      ComingStep(w, self, hash, s, w'.calls[c].path);
    }
  }

  lemma HashedBefore(w: World, self: Id, hash: Bytes -> Id, s: Step, c: nat)
    requires var w' := Apply(w, self, hash, s); c < |w'.calls| && w'.calls[c].stage.Hashed?
    ensures var w' := Apply(w, self, hash, s);
            (c < |w.calls| && w.calls[c] == w'.calls[c]) || w'.calls[c].path in w'.folder
  {
    if s.Handle? && Enabled(w, s) {
      assert Apply(w, self, hash, s).calls == w.calls;
    }
  }

  lemma {:induction false} AlwaysReported(self: Id, hash: Bytes -> Id, run: seq<Step>, rules: set<Rule>)
    requires Along(self, hash, run, rules) && {NoRace, NoRelist} <= rules
    ensures Reported(Exec(self, hash, run), self) && Doomed(Exec(self, hash, run))
  {
    if run == [] {
      forall f: Id
        ensures !LiveAt(EMPTY_DB, self, f)
      {
      }
    } else {
      var init, s := run[..|run| - 1], run[|run| - 1];
      var w := Exec(self, hash, init);
      AlwaysReported(self, hash, init, rules);
      AlwaysValid(self, hash, init);
      AlongOnePerPath(self, hash, init, rules);
      assert Obeys(w, self, hash, s, NoRace);
      ReportedStep(w, self, hash, s);
      DoomedStep(w, self, hash, s);
    }
  }

  // ---- the index ----

  predicate AtWork(st: Stage) { st.Stored? || st.Rehashed? }

  /** Call c has stored its file, the catalog still says so, and the file is the one to
      be recorded in the index. */
  predicate Mending(w: World, self: Id, hash: Bytes -> Id, c: nat)
    requires c < |w.calls| && AtWork(w.calls[c].stage)
  {
    var st := w.calls[c].stage;
    InCatalog(w.view, self, hash(st.content)) == Some(w.calls[c].path) && (st.Rehashed? ==> hash(st.again) == hash(st.content))
  }

  ghost predicate Consistent(w: World, self: Id, hash: Bytes -> Id) {
    && (forall c :: 0 <= c < |w.calls| && AtWork(w.calls[c].stage) ==> Mending(w, self, hash, c))
    && (w.removal.Dropped? ==> InCatalog(w.view, self, w.removal.file) == None)
  }

  /** Where a call at work after a step was before it. */
  lemma AtWorkBefore(w: World, self: Id, hash: Bytes -> Id, s: Step, c: nat)
    requires var w' := Apply(w, self, hash, s); c < |w'.calls| && AtWork(w'.calls[c].stage)
    ensures var w' := Apply(w, self, hash, s);
            && c < |w.calls| && w'.calls[c].path == w.calls[c].path
            && (|| w'.calls[c] == w.calls[c]
                || (s.Store? && s.call == c && Enabled(w, s) && Encodable(w.calls[c].stage.modTime)
                    && w'.calls[c].stage == Stored(w.calls[c].stage.content))
                || (s == Rehash(c) && Enabled(w, s) && w.calls[c].path in w.folder
                    && w'.calls[c].stage == Rehashed(w.calls[c].stage.content, w.folder[w.calls[c].path])))
  {
    if s.Handle? && Enabled(w, s) {
      assert Apply(w, self, hash, s).calls == w.calls;
    }
  }

  lemma MendingStep(w: World, self: Id, hash: Bytes -> Id, s: Step, c: nat)
    requires Valid(w.view.db) && Unique(w, hash) && Consistent(w, self, hash) && Obeys(w, self, hash, s, Steady)
    requires var w' := Apply(w, self, hash, s); c < |w'.calls| && AtWork(w'.calls[c].stage)
    ensures Mending(Apply(w, self, hash, s), self, hash, c)
  {
    var h := hash(Apply(w, self, hash, s).calls[c].stage.content);
    AtWorkBefore(w, self, hash, s, c);
    ViewStep(w, self, hash, s, h);
    WriterHolds(w, hash, s);
    if AtWork(w.calls[c].stage) {
      assert Mending(w, self, hash, c) && Holds(w, hash, c, h);
    }
  }

  lemma DroppedStep(w: World, self: Id, hash: Bytes -> Id, s: Step)
    requires Valid(w.view.db) && Unique(w, hash) && Consistent(w, self, hash)
    requires Apply(w, self, hash, s).removal.Dropped?
    ensures var w' := Apply(w, self, hash, s); InCatalog(w'.view, self, w'.removal.file) == None
  {
    if s.Drop? && Enabled(w, s) {
      DropStep(w, self, hash, s.now, w.removal.file);
    } else {
      StaysDropped(w, self, hash, s);
      OthersKeep(w, self, hash, s, -1, w.removal.file);
    }
  }

  lemma StaysDropped(w: World, self: Id, hash: Bytes -> Id, s: Step)
    requires Apply(w, self, hash, s).removal.Dropped? && !(s.Drop? && Enabled(w, s))
    ensures w.removal == Apply(w, self, hash, s).removal && Holds(w, hash, -1, w.removal.file)
    ensures CatalogWrite(w, hash, s).Some? || IndexWrite(w, hash, s).Some? ==> Actor(s) != -1
  {
  }

  lemma {:induction false} AlwaysConsistent(self: Id, hash: Bytes -> Id, run: seq<Step>, rules: set<Rule>)
    requires Along(self, hash, run, rules) && {NoClash, Steady} <= rules
    ensures Consistent(Exec(self, hash, run), self, hash)
  {
    if run != [] {
      var init, s := run[..|run| - 1], run[|run| - 1];
      var w, w' := Exec(self, hash, init), Exec(self, hash, run);
      AlwaysConsistent(self, hash, init, rules);
      AlwaysValid(self, hash, init);
      AlwaysUnique(self, hash, init, rules);
      assert Obeys(w, self, hash, s, Steady);
      forall c | 0 <= c < |w'.calls| && AtWork(w'.calls[c].stage)
        ensures Mending(w', self, hash, c)
      {
        MendingStep(w, self, hash, s, c);
      }
      if w'.removal.Dropped? {
        DroppedStep(w, self, hash, s);
      }
    }
  }

  /** Every file of the index is live, except one that is just being removed. */
  ghost predicate KeysLive(w: World, self: Id) {
    forall f: Id :: f in w.view.index ==> LiveAt(w.view.db, self, f) || (w.removal.Dropped? && w.removal.file == f)
  }

  lemma KeyStep(w: World, self: Id, hash: Bytes -> Id, s: Step, f: Id)
    requires Valid(w.view.db) && Consistent(w, self, hash) && KeysLive(w, self)
    ensures var w' := Apply(w, self, hash, s);
            f in w'.view.index ==> LiveAt(w'.view.db, self, f) || (w'.removal.Dropped? && w'.removal.file == f)
  {
    ViewStep(w, self, hash, s, f);
    if s.Record? && Enabled(w, s) {
      assert AtWork(w.calls[s.call].stage) && Mending(w, self, hash, s.call);
    }
  }

  lemma {:induction false} AlwaysKeysLive(self: Id, hash: Bytes -> Id, run: seq<Step>, rules: set<Rule>)
    requires Along(self, hash, run, rules) && {NoClash, Steady} <= rules
    ensures KeysLive(Exec(self, hash, run), self)
  {
    if run != [] {
      var init, s := run[..|run| - 1], run[|run| - 1];
      AlwaysKeysLive(self, hash, init, rules);
      AlwaysConsistent(self, hash, init, rules);
      AlwaysValid(self, hash, init);
      forall f: Id | f in Exec(self, hash, run).view.index
        ensures var w' := Exec(self, hash, run); LiveAt(w'.view.db, self, f) || (w'.removal.Dropped? && w'.removal.file == f)
      {
        KeyStep(Exec(self, hash, init), self, hash, s, f);
      }
    }
  }

  // ---- the catalog shows the folder ----

  lemma ListedIsPresent(self: Id, hash: Bytes -> Id, run: seq<Step>, rules: set<Rule>, f: Id, p: string)
    requires Along(self, hash, run, rules) && {DistinctContents, StorableTimes, NoClash, NoRace, NoRelist} <= rules
    requires Quiet(Exec(self, hash, run)) && LiveAs(Exec(self, hash, run).view.db, self, f, p)
    ensures var w := Exec(self, hash, run); p in w.folder && hash(w.folder[p]) == f
  {
    var w := Exec(self, hash, run);
    AlwaysReported(self, hash, run, rules);
    AlongOnePerPath(self, hash, run, rules);
    assert !Coming(w, p);
    EveryFileIndexed(self, hash, run, rules, p);
  }

  /** If moreover no path is listed twice, no removal overtakes a callback on its path and
      both hashes of a callback agree, catalog and index are exactly the folder. */
  lemma QuietShowsFolder(self: Id, hash: Bytes -> Id, run: seq<Step>, rules: set<Rule>)
    requires Along(self, hash, run, rules)
    requires {DistinctContents, StorableTimes, NoClash, NoRace, NoRelist, Steady} <= rules
    requires Quiet(Exec(self, hash, run))
    ensures Shows(Exec(self, hash, run), self, hash)
  {
    var w := Exec(self, hash, run);
    AlwaysKeysLive(self, hash, run, rules);
    forall f: Id, p: string
      ensures LiveAs(w.view.db, self, f, p) <==> p in w.folder && hash(w.folder[p]) == f
    {
      if LiveAs(w.view.db, self, f, p) {
        ListedIsPresent(self, hash, run, rules, f, p);
      }
      if p in w.folder {
        EveryFileIndexed(self, hash, run, rules, p);
      }
    }
    forall f: Id, p: string
      ensures At(w.view, f, p) <==> p in w.folder && hash(w.folder[p]) == f
    {
      if p in w.folder {
        EveryFileIndexed(self, hash, run, rules, p);
      }
      if At(w.view, f, p) {
        var q := Lookup(w.view.db, self, f).value.localPath;
        assert LiveAs(w.view.db, self, f, q);
        EveryFileIndexed(self, hash, run, rules, q);
      }
    }
  }

  /** Two files with one hash can never both be shown, in any state. */
  lemma ShownMeansDistinct(w: World, self: Id, hash: Bytes -> Id)
    requires Shows(w, self, hash)
    ensures Distinct(w.folder, hash) && OnePerPath(w.view, self)
  {
    forall p, q | p in w.folder && q in w.folder && p != q
      ensures hash(w.folder[p]) != hash(w.folder[q])
    {
      assert At(w.view, hash(w.folder[p]), p) && At(w.view, hash(w.folder[q]), q);
    }
  }
}
