/** Catalog and index while calls come and go: when calls keep apart, exactly which
    callbacks make them disagree. */
module FolderAgree {
  import opened Basics
  import opened Catalog
  import opened Watcher
  import opened Folder
  import opened FolderShows

  /** Catalog and index say the same of file f. */
  predicate Settled(w: World, self: Id, f: Id) {
    InCatalog(w.view, self, f) == InIndex(w.view, f)
  }

  ghost predicate InHand(w: World, hash: Bytes -> Id, f: Id) {
    exists c: int :: Holds(w, hash, c, f)
  }

  /** Catalog and index agree on every file that no call has in hand. */
  ghost predicate SettledApart(w: World, self: Id, hash: Bytes -> Id) {
    forall f: Id :: !InHand(w, hash, f) ==> Settled(w, self, f)
  }

  ghost predicate AlwaysSettledApart(self: Id, hash: Bytes -> Id, run: seq<Step>) {
    && SettledApart(Exec(self, hash, run), self, hash)
    && (run != [] ==> AlwaysSettledApart(self, hash, run[..|run| - 1]))
  }

  /** A callback that ends without finding its file again had it indexed at its path
      before; one that found other content had the first indexed there and the second
      listed there. */
  predicate EndsCovered(w: World, self: Id, hash: Bytes -> Id, s: Step) {
    if !Enabled(w, s) then true
    else match s
      case Rehash(c) =>
        var p := w.calls[c].path;
        p in w.folder || InIndex(w.view, hash(w.calls[c].stage.content)) == Some(p)
      case Record(c) =>
        var p, f, g := w.calls[c].path, hash(w.calls[c].stage.content), hash(w.calls[c].stage.again);
        f == g || (InIndex(w.view, f) == Some(p) && InCatalog(w.view, self, g) == Some(p))
      case _ => true
  }

  predicate AlwaysCovered(self: Id, hash: Bytes -> Id, run: seq<Step>) {
    run != [] ==>
      && AlwaysCovered(self, hash, run[..|run| - 1])
      && EndsCovered(Exec(self, hash, run[..|run| - 1]), self, hash, run[|run| - 1])
  }

  // ---- what calls under way owe ----

  /** Call c, or the removal when c is -1, has written f in the catalog and not yet in
      the index. */
  predicate Owes(w: World, hash: Bytes -> Id, c: int, f: Id) {
    if c == -1 then w.removal.Dropped? && w.removal.file == f
    else 0 <= c < |w.calls| && AtWork(w.calls[c].stage) && hash(w.calls[c].stage.content) == f
  }

  /** What the catalog says of a file owed by call c. */
  function OwedPath(w: World, c: int): Option<string> {
    if 0 <= c < |w.calls| then Some(w.calls[c].path) else None
  }

  ghost predicate Accounted(w: World, self: Id, hash: Bytes -> Id) {
    && (forall c: int, f: Id :: Owes(w, hash, c, f) ==> InCatalog(w.view, self, f) == OwedPath(w, c))
    && (forall f: Id :: Settled(w, self, f) || exists c: int :: Owes(w, hash, c, f))
  }

  lemma OwesHolds(w: World, hash: Bytes -> Id, c: int, f: Id)
    requires Owes(w, hash, c, f)
    ensures Holds(w, hash, c, f)
  {
  }

  /** A file in hand of a call that does not owe it is settled. */
  lemma SettledInHand(w: World, self: Id, hash: Bytes -> Id, c: int, f: Id)
    requires Unique(w, hash) && Accounted(w, self, hash) && Holds(w, hash, c, f) && !Owes(w, hash, c, f)
    ensures Settled(w, self, f)
  {
    if !Settled(w, self, f) {
      var d: int :| Owes(w, hash, d, f);
      OwesHolds(w, hash, d, f);
    }
  }

  lemma SettledWhenFree(w: World, self: Id, hash: Bytes -> Id, f: Id)
    requires Accounted(w, self, hash) && !InHand(w, hash, f)
    ensures Settled(w, self, f)
  {
    if !Settled(w, self, f) {
      var d: int :| Owes(w, hash, d, f);
      OwesHolds(w, hash, d, f);
    }
  }

  predicate Writes(w: World, hash: Bytes -> Id, s: Step, f: Id) {
    || (CatalogWrite(w, hash, s).Some? && CatalogWrite(w, hash, s).value.file == f)
    || (IndexWrite(w, hash, s).Some? && IndexWrite(w, hash, s).value.file == f)
  }

  lemma UnwrittenKeeps(w: World, self: Id, hash: Bytes -> Id, s: Step, f: Id)
    requires Valid(w.view.db) && !Writes(w, hash, s, f)
    ensures var w' := Apply(w, self, hash, s);
            && InCatalog(w'.view, self, f) == InCatalog(w.view, self, f)
            && InIndex(w'.view, f) == InIndex(w.view, f)
  {
    ViewStep(w, self, hash, s, f);
  }

  /** Only the call that has a file in hand writes it. */
  lemma WritesByHolder(w: World, hash: Bytes -> Id, s: Step, f: Id)
    requires Writes(w, hash, s, f)
    ensures Holds(w, hash, Actor(s), f)
  {
    WriterHolds(w, hash, s);
  }

  // ---- one step ----

  /** A call that owes a file after a step owed it before or has just written it. */
  lemma OwesBefore(w: World, self: Id, hash: Bytes -> Id, s: Step, c: int, f: Id)
    requires Owes(Apply(w, self, hash, s), hash, c, f)
    ensures OwedPath(Apply(w, self, hash, s), c) == OwedPath(w, c)
    ensures (Owes(w, hash, c, f) && !(Actor(s) == c && Writes(w, hash, s, f)))
            || CatalogWrite(w, hash, s) == Some(Setting(f, OwedPath(w, c)))
  {
    if c != -1 {
      AtWorkBefore(w, self, hash, s, c);
    }
  }

  lemma OwedStep(w: World, self: Id, hash: Bytes -> Id, s: Step, c: int, f: Id)
    requires Valid(w.view.db) && Unique(w, hash) && Accounted(w, self, hash)
    requires Owes(Apply(w, self, hash, s), hash, c, f)
    ensures InCatalog(Apply(w, self, hash, s).view, self, f) == OwedPath(Apply(w, self, hash, s), c)
  {
    OwesBefore(w, self, hash, s, c, f);
    if CatalogWrite(w, hash, s) == Some(Setting(f, OwedPath(w, c))) {
      ViewStep(w, self, hash, s, f);
    } else {
      OwesHolds(w, hash, c, f);
      if Writes(w, hash, s, f) {
        WritesByHolder(w, hash, s, f);
      }
      UnwrittenKeeps(w, self, hash, s, f);
    }
  }

  /** A file in hand after a step and not owed was in hand of the same call and not owed,
      or has just been taken up. */
  lemma HeldBefore(w: World, self: Id, hash: Bytes -> Id, s: Step, c: int, f: Id)
    requires var w' := Apply(w, self, hash, s); Holds(w', hash, c, f) && !Owes(w', hash, c, f)
    ensures (Holds(w, hash, c, f) && !Owes(w, hash, c, f)) || Acquires(w, self, hash, s) == Some((c, f))
  {
    HoldStep(w, self, hash, s, c, f);
  }

  /** A call that writes a file owes it afterwards or has let it go. */
  lemma WritesEndHold(w: World, self: Id, hash: Bytes -> Id, s: Step, f: Id)
    requires Writes(w, hash, s, f)
    ensures var w' := Apply(w, self, hash, s); Owes(w', hash, Actor(s), f) || !Holds(w', hash, Actor(s), f)
    ensures Acquires(w, self, hash, s).None?
  {
  }

  lemma StillSettled(w: World, self: Id, hash: Bytes -> Id, s: Step, c: int, f: Id)
    requires Valid(w.view.db) && Unique(w, hash) && Accounted(w, self, hash) && Obeys(w, self, hash, s, NoClash)
    requires var w' := Apply(w, self, hash, s); Holds(w', hash, c, f) && !Owes(w', hash, c, f)
    ensures Settled(Apply(w, self, hash, s), self, f)
  {
    HeldBefore(w, self, hash, s, c, f);
    if InHand(w, hash, f) {
      var d: int :| Holds(w, hash, d, f);
      SettledInHand(w, self, hash, c, f);
    } else {
      SettledWhenFree(w, self, hash, f);
    }
    if Writes(w, hash, s, f) {
      WritesByHolder(w, hash, s, f);
      WritesEndHold(w, self, hash, s, f);
    }
    UnwrittenKeeps(w, self, hash, s, f);
  }

  /** How a call lets go of a file. */
  lemma LetsGo(w: World, self: Id, hash: Bytes -> Id, s: Step, c: int, f: Id)
    requires Holds(w, hash, c, f) && !Holds(Apply(w, self, hash, s), hash, c, f)
    ensures Enabled(w, s)
    ensures if c == -1 then s.Forget?
            else (s.Store? && s.call == c && !Encodable(w.calls[c].stage.modTime)) || s == Record(c)
                 || (s == Rehash(c) && w.calls[c].path !in w.folder)
  {
  }

  lemma FreedIsSettled(w: World, self: Id, hash: Bytes -> Id, s: Step, f: Id)
    requires Valid(w.view.db) && Unique(w, hash) && Accounted(w, self, hash) && EndsCovered(w, self, hash, s)
    requires !InHand(Apply(w, self, hash, s), hash, f)
    ensures Settled(Apply(w, self, hash, s), self, f)
  {
    ViewStep(w, self, hash, s, f);
    if c: int :| Holds(w, hash, c, f) {
      LetsGo(w, self, hash, s, c, f);
      if Owes(w, hash, c, f) {
        assert InCatalog(w.view, self, f) == OwedPath(w, c);
      } else {
        SettledInHand(w, self, hash, c, f);
      }
    } else {
      SettledWhenFree(w, self, hash, f);
      if Writes(w, hash, s, f) {
        WritesByHolder(w, hash, s, f);
      }
    }
  }

  /** A call that ends frees the files it had in hand. */
  lemma EndFrees(w: World, self: Id, hash: Bytes -> Id, s: Step, c: nat, f: Id)
    requires Unique(w, hash) && Holds(w, hash, c, f) && Enabled(w, s)
    requires s == Record(c) || (s == Rehash(c) && w.calls[c].path !in w.folder)
    ensures !InHand(Apply(w, self, hash, s), hash, f)
  {
    var w' := Apply(w, self, hash, s);
    forall d: int
      ensures !Holds(w', hash, d, f)
    {
      if Holds(w', hash, d, f) {
        HoldStep(w, self, hash, s, d, f);
      }
    }
  }

  lemma UncoveredBreaks(w: World, self: Id, hash: Bytes -> Id, s: Step)
    requires Valid(w.view.db) && Unique(w, hash) && Accounted(w, self, hash) && !EndsCovered(w, self, hash, s)
    ensures !SettledApart(Apply(w, self, hash, s), self, hash)
  {
    var c := s.call;
    var f := hash(w.calls[c].stage.content);
    assert Owes(w, hash, c, f);
    EndFrees(w, self, hash, s, c, f);
    ViewStep(w, self, hash, s, f);
    if s.Record? {
      var g := hash(w.calls[c].stage.again);
      EndFrees(w, self, hash, s, c, g);
      ViewStep(w, self, hash, s, g);
    }
  }

  lemma CoveredStep(w: World, self: Id, hash: Bytes -> Id, s: Step)
    requires Valid(w.view.db) && Unique(w, hash) && Accounted(w, self, hash)
    ensures SettledApart(Apply(w, self, hash, s), self, hash) <==> EndsCovered(w, self, hash, s)
  {
    if EndsCovered(w, self, hash, s) {
      forall f: Id | !InHand(Apply(w, self, hash, s), hash, f)
        ensures Settled(Apply(w, self, hash, s), self, f)
      {
        FreedIsSettled(w, self, hash, s, f);
      }
    } else {
      UncoveredBreaks(w, self, hash, s);
    }
  }

  lemma AccountedStep(w: World, self: Id, hash: Bytes -> Id, s: Step)
    requires Valid(w.view.db) && Unique(w, hash) && Accounted(w, self, hash) && Obeys(w, self, hash, s, NoClash)
    requires SettledApart(Apply(w, self, hash, s), self, hash)
    ensures Accounted(Apply(w, self, hash, s), self, hash)
  {
    var w' := Apply(w, self, hash, s);
    forall c: int, f: Id | Owes(w', hash, c, f)
      ensures InCatalog(w'.view, self, f) == OwedPath(w', c)
    {
      OwedStep(w, self, hash, s, c, f);
    }
    forall f: Id
      ensures Settled(w', self, f) || exists c: int :: Owes(w', hash, c, f)
    {
      if c: int :| Holds(w', hash, c, f) && !Owes(w', hash, c, f) {
        StillSettled(w, self, hash, s, c, f);
      }
    }
  }

  // ---- every run ----

  /** When no call takes up a file that another has in hand, catalog and index agree all
      along a run on every file no call has in hand if and only if each callback that did
      not find its file again ends covered. */
  lemma {:induction false} SettledIffCovered(self: Id, hash: Bytes -> Id, run: seq<Step>)
    requires Along(self, hash, run, {NoClash})
    ensures AlwaysSettledApart(self, hash, run) <==> AlwaysCovered(self, hash, run)
    ensures AlwaysSettledApart(self, hash, run) ==> Accounted(Exec(self, hash, run), self, hash)
  {
    if run != [] {
      var init, s := run[..|run| - 1], run[|run| - 1];
      var w := Exec(self, hash, init);
      SettledIffCovered(self, hash, init);
      if AlwaysSettledApart(self, hash, init) {
        AlwaysValid(self, hash, init);
        AlwaysUnique(self, hash, init, {NoClash});
        assert Obeys(w, self, hash, s, NoClash);
        CoveredStep(w, self, hash, s);
        if EndsCovered(w, self, hash, s) {
          AccountedStep(w, self, hash, s);
        }
      }
    }
  }

  /** With no file in hand, that is agreement of the whole catalog and the whole index. */
  lemma ApartIsAgreement(w: World, self: Id, hash: Bytes -> Id)
    requires forall f: Id :: !InHand(w, hash, f)
    ensures SettledApart(w, self, hash) <==> Agree(w.view, self)
  {
    AgreePointwise(w.view, self);
    forall f: Id
      ensures Settled(w, self, f) <==> InCatalog(w.view, self, f) == InIndex(w.view, f)
    {
    }
  }

  lemma {:induction false} FoundIsCovered(self: Id, hash: Bytes -> Id, run: seq<Step>, rules: set<Rule>)
    requires Along(self, hash, run, rules) && {NoClash, Steady, StillThere} <= rules
    ensures AlwaysCovered(self, hash, run)
  {
    if run != [] {
      var init, s := run[..|run| - 1], run[|run| - 1];
      FoundIsCovered(self, hash, init, rules);
      AlwaysConsistent(self, hash, init, rules);
      assert Obeys(Exec(self, hash, init), self, hash, s, StillThere);
      if s.Record? && Enabled(Exec(self, hash, init), s) {
        assert Mending(Exec(self, hash, init), self, hash, s.call);
      }
    }
  }

  /** Calls that keep apart and find the same file both times leave catalog and index in
      agreement whenever none of them is under way. */
  lemma ApartAgrees(self: Id, hash: Bytes -> Id, run: seq<Step>, rules: set<Rule>)
    requires Along(self, hash, run, rules) && {NoClash, Steady, StillThere} <= rules
    requires var w := Exec(self, hash, run);
             w.removal.Idle? && forall c :: 0 <= c < |w.calls| ==> !AtWork(w.calls[c].stage)
    ensures Agree(Exec(self, hash, run).view, self)
  {
    var w := Exec(self, hash, run);
    FoundIsCovered(self, hash, run, rules);
    AlongFewer(self, hash, run, rules, {NoClash});
    SettledIffCovered(self, hash, run);
    forall f: Id
      ensures InCatalog(w.view, self, f) == InIndex(w.view, f)
    {
      assert Settled(w, self, f) || exists c: int :: Owes(w, hash, c, f);
    }
    AgreePointwise(w.view, self);
  }
}
