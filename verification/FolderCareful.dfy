/** Writers who neither rewrite a file in place nor reuse a path too early, and calls that
    keep apart: then the catalog shows the folder once nothing is left to do. */
module FolderCareful {
  import opened Basics
  import opened Catalog
  import opened Watcher
  import opened Folder
  import opened FolderShows

  const CAREFUL: set<Rule> := {NoRewrite, NoHurry, NoClash, NoRace}

  predicate HasContent(st: Stage) { st.Hashed? || st.Stored? || st.Rehashed? }

  /** A path of the folder is listed with the content it has. */
  ghost predicate Current(w: World, self: Id, hash: Bytes -> Id) {
    forall f: Id, p: string :: LiveAs(w.view.db, self, f, p) && p in w.folder ==> f == hash(w.folder[p])
  }

  /** A callback works on the content its path has. */
  ghost predicate CallsCurrent(w: World, hash: Bytes -> Id) {
    forall c :: 0 <= c < |w.calls| && HasContent(w.calls[c].stage) && w.calls[c].path in w.folder ==>
      hash(w.calls[c].stage.content) == hash(w.folder[w.calls[c].path])
  }

  /** A callback that has hashed a listed path found the listed content. */
  ghost predicate SameLife(w: World, self: Id, hash: Bytes -> Id) {
    forall c, f: Id :: 0 <= c < |w.calls| && w.calls[c].stage.Hashed? && LiveAs(w.view.db, self, f, w.calls[c].path) ==>
      f == hash(w.calls[c].stage.content)
  }

  /** Callbacks of one path work on one content. */
  ghost predicate OneLife(w: World, hash: Bytes -> Id) {
    forall c, d :: 0 <= c < |w.calls| && 0 <= d < |w.calls| && HasContent(w.calls[c].stage) && HasContent(w.calls[d].stage)
                   && w.calls[c].path == w.calls[d].path ==>
      hash(w.calls[c].stage.content) == hash(w.calls[d].stage.content)
  }

  ghost predicate Tidy(w: World, self: Id, hash: Bytes -> Id) {
    Current(w, self, hash) && CallsCurrent(w, hash) && SameLife(w, self, hash) && OneLife(w, hash)
  }

  /** What the earlier invariants give of a state. */
  ghost predicate Known(w: World, self: Id, hash: Bytes -> Id) {
    && Valid(w.view.db) && Unique(w, hash) && Reported(w, self) && Doomed(w) && Consistent(w, self, hash)
  }

  ghost predicate StepCareful(w: World, self: Id, hash: Bytes -> Id, s: Step) {
    forall r :: r in CAREFUL ==> Obeys(w, self, hash, s, r)
  }

  /** A path that may be written has no listing and no callback at work. */
  lemma FreshPath(w: World, self: Id, hash: Bytes -> Id, p: string)
    requires Known(w, self, hash) && p !in w.folder && Gone(p) !in w.events && !Removing(w, p)
    ensures forall f: Id :: !LiveAs(w.view.db, self, f, p)
    ensures forall c :: 0 <= c < |w.calls| && w.calls[c].path == p ==> !HasContent(w.calls[c].stage)
  {
    forall c | 0 <= c < |w.calls| && w.calls[c].path == p
      ensures !HasContent(w.calls[c].stage)
    {
      if AtWork(w.calls[c].stage) {
        assert Mending(w, self, hash, c);
        assert LiveAs(w.view.db, self, hash(w.calls[c].stage.content), p);
      }
    }
  }

  lemma WritableFresh(w: World, self: Id, hash: Bytes -> Id, s: Step)
    requires Known(w, self, hash) && StepCareful(w, self, hash, s) && s.Write?
    ensures forall f: Id :: !LiveAs(w.view.db, self, f, s.path)
    ensures forall c :: 0 <= c < |w.calls| && w.calls[c].path == s.path ==> !HasContent(w.calls[c].stage)
  {
    assert Obeys(w, self, hash, s, NoRewrite) && Obeys(w, self, hash, s, NoHurry);
    FreshPath(w, self, hash, s.path);
  }

  /** A content in hand after a step was in hand before, or has just been read. */
  lemma ContentBefore(w: World, self: Id, hash: Bytes -> Id, s: Step, c: nat)
    requires var w' := Apply(w, self, hash, s); c < |w'.calls| && HasContent(w'.calls[c].stage)
    ensures var w' := Apply(w, self, hash, s);
            && c < |w.calls| && w'.calls[c].path == w.calls[c].path
            && (|| (HasContent(w.calls[c].stage) && w'.calls[c].stage.content == w.calls[c].stage.content
                    && (w'.calls[c].stage.Hashed? ==> w'.calls[c] == w.calls[c]))
                || (s.Hash? && s.call == c && w.calls[c].path in w.folder && w'.folder == w.folder
                    && w'.calls[c].stage.Hashed? && w'.calls[c].stage.content == w.folder[w.calls[c].path]))
  {
    if s.Handle? && Enabled(w, s) {
      assert Apply(w, self, hash, s).calls == w.calls;
    }
  }

  /** The folder changes only by writing and deleting. */
  lemma FolderStep(w: World, self: Id, hash: Bytes -> Id, s: Step, p: string)
    ensures var w' := Apply(w, self, hash, s);
            p in w'.folder && !(s.Write? && s.path == p) ==> p in w.folder && w'.folder[p] == w.folder[p]
  {
  }

  lemma CurrentStep(w: World, self: Id, hash: Bytes -> Id, s: Step, f: Id, p: string)
    requires Known(w, self, hash) && Tidy(w, self, hash) && StepCareful(w, self, hash, s)
    requires var w' := Apply(w, self, hash, s); LiveAs(w'.view.db, self, f, p) && p in w'.folder
    ensures f == hash(Apply(w, self, hash, s).folder[p])
  {
    LiveStep(w, self, hash, s, f, p);
    FolderStep(w, self, hash, s, p);
    if s.Write? {
      WritableFresh(w, self, hash, s);
    }
  }

  lemma CallsCurrentStep(w: World, self: Id, hash: Bytes -> Id, s: Step, c: nat)
    requires Known(w, self, hash) && Tidy(w, self, hash) && StepCareful(w, self, hash, s)
    requires var w' := Apply(w, self, hash, s);
             c < |w'.calls| && HasContent(w'.calls[c].stage) && w'.calls[c].path in w'.folder
    ensures var w' := Apply(w, self, hash, s); hash(w'.calls[c].stage.content) == hash(w'.folder[w'.calls[c].path])
  {
    ContentBefore(w, self, hash, s, c);
    FolderStep(w, self, hash, s, w.calls[c].path);
    if s.Write? {
      WritableFresh(w, self, hash, s);
    }
  }

  lemma OneLifeStep(w: World, self: Id, hash: Bytes -> Id, s: Step, c: nat, d: nat)
    requires Tidy(w, self, hash)
    requires var w' := Apply(w, self, hash, s);
             && c < |w'.calls| && d < |w'.calls| && HasContent(w'.calls[c].stage) && HasContent(w'.calls[d].stage)
             && w'.calls[c].path == w'.calls[d].path
    ensures var w' := Apply(w, self, hash, s); hash(w'.calls[c].stage.content) == hash(w'.calls[d].stage.content)
  {
    ContentBefore(w, self, hash, s, c);
    ContentBefore(w, self, hash, s, d);
  }

  lemma SameLifeStep(w: World, self: Id, hash: Bytes -> Id, s: Step, c: nat, f: Id)
    requires Known(w, self, hash) && Tidy(w, self, hash)
    requires var w' := Apply(w, self, hash, s);
             c < |w'.calls| && w'.calls[c].stage.Hashed? && LiveAs(w'.view.db, self, f, w'.calls[c].path)
    ensures f == hash(Apply(w, self, hash, s).calls[c].stage.content)
  {
    var w' := Apply(w, self, hash, s);
    ContentBefore(w, self, hash, s, c);
    LiveStep(w, self, hash, s, f, w'.calls[c].path);
    if s.Store? && Enabled(w, s) {
      assert Holds(w, hash, s.call, hash(w.calls[s.call].stage.content));
      assert Holds(w, hash, c, hash(w'.calls[c].stage.content));
    }
  }

  lemma TidyStep(w: World, self: Id, hash: Bytes -> Id, s: Step)
    requires Known(w, self, hash) && Tidy(w, self, hash) && StepCareful(w, self, hash, s)
    ensures Tidy(Apply(w, self, hash, s), self, hash)
  {
    var w' := Apply(w, self, hash, s);
    forall f: Id, p: string | LiveAs(w'.view.db, self, f, p) && p in w'.folder
      ensures f == hash(w'.folder[p])
    {
      CurrentStep(w, self, hash, s, f, p);
    }
    forall c | 0 <= c < |w'.calls| && HasContent(w'.calls[c].stage) && w'.calls[c].path in w'.folder
      ensures hash(w'.calls[c].stage.content) == hash(w'.folder[w'.calls[c].path])
    {
      CallsCurrentStep(w, self, hash, s, c);
    }
    forall c, f: Id | 0 <= c < |w'.calls| && w'.calls[c].stage.Hashed? && LiveAs(w'.view.db, self, f, w'.calls[c].path)
      ensures f == hash(w'.calls[c].stage.content)
    {
      SameLifeStep(w, self, hash, s, c, f);
    }
    forall c, d | 0 <= c < |w'.calls| && 0 <= d < |w'.calls| && HasContent(w'.calls[c].stage) && HasContent(w'.calls[d].stage)
                  && w'.calls[c].path == w'.calls[d].path
      ensures hash(w'.calls[c].stage.content) == hash(w'.calls[d].stage.content)
    {
      OneLifeStep(w, self, hash, s, c, d);
    }
  }

  lemma AlwaysKnown(self: Id, hash: Bytes -> Id, run: seq<Step>, rules: set<Rule>)
    requires Along(self, hash, run, rules) && {NoClash, NoRace, NoRelist, Steady} <= rules
    ensures Known(Exec(self, hash, run), self, hash)
  {
    AlwaysValid(self, hash, run);
    AlwaysUnique(self, hash, run, rules);
    AlwaysReported(self, hash, run, rules);
    AlwaysConsistent(self, hash, run, rules);
  }

  /** Such runs never list a path twice, and both hashes of a callback agree. */
  lemma {:induction false} CarefulIsTidy(self: Id, hash: Bytes -> Id, run: seq<Step>, rules: set<Rule>)
    requires Along(self, hash, run, rules) && CAREFUL <= rules
    ensures Tidy(Exec(self, hash, run), self, hash)
    ensures Along(self, hash, run, rules + {NoRelist, Steady})
  {
    if run == [] {
      forall f: Id
        ensures !LiveAt(EMPTY_DB, self, f)
      {
      }
    } else {
      var init, s := run[..|run| - 1], run[|run| - 1];
      var w, more := Exec(self, hash, init), rules + {NoRelist, Steady};
      CarefulIsTidy(self, hash, init, rules);
      AlwaysKnown(self, hash, init, more);
      assert StepCareful(w, self, hash, s);
      TidyStep(w, self, hash, s);
      TidyObeys(w, self, hash, s);
    }
  }

  lemma TidyObeys(w: World, self: Id, hash: Bytes -> Id, s: Step)
    requires Tidy(w, self, hash)
    ensures Obeys(w, self, hash, s, NoRelist) && Obeys(w, self, hash, s, Steady)
  {
  }

  /** Distinct contents, storable times, no rewriting in place, no path used again before
      its removal was handled, no two calls on one file, no removal that overtakes a
      callback on its path: once nothing is left to do, the catalog shows the folder. */
  lemma CarefulRunsShowFolder(self: Id, hash: Bytes -> Id, run: seq<Step>, rules: set<Rule>)
    requires Along(self, hash, run, rules) && CAREFUL + {DistinctContents, StorableTimes} <= rules
    requires Quiet(Exec(self, hash, run))
    ensures Shows(Exec(self, hash, run), self, hash)
  {
    CarefulIsTidy(self, hash, run, rules);
    QuietShowsFolder(self, hash, run, rules + {NoRelist, Steady});
  }
}
