/** The shared folder, the event queue, the timers, the watcher's calls under way and its
    two indexes as one machine. Callbacks run on timer goroutines and removals on the
    event loop; every store transaction and every index access is a step of its own. */
module Folder {
  import opened Basics
  import opened Catalog
  import opened CatalogLaws
  import opened Watcher

  /** Create and write events touch a path; remove and rename events report it gone. */
  datatype Notice = Touched(path: string) | Gone(path: string)

  datatype Timer = Timer(path: string, armed: bool)

  /** A timer's callback: waiting for the debouncer's lock, begun, with the file hashed,
      stored in the catalog, hashed again for the index, finished. */
  datatype Stage =
    | Waiting
    | Begun
    | Hashed(content: Bytes, modTime: int)
    | Stored(content: Bytes)
    | Rehashed(content: Bytes, again: Bytes)
    | Finished

  datatype Call = Call(path: string, stage: Stage)

  /** The removal the event loop is busy with. */
  datatype Removal =
    | Idle
    | Looking(path: string)
    | Found(path: string, file: Id)
    | Dropped(path: string, file: Id)

  /** `entries` is the debouncer's map; a timer may outlive its entry. */
  datatype World = World(
    folder: map<string, Bytes>,
    events: seq<Notice>,
    timers: seq<Timer>,
    entries: map<string, nat>,
    calls: seq<Call>,
    removal: Removal,
    view: View)

  /** Somebody writes a file (a burst of 1 + more events) or deletes one; the event loop
      takes an event; a timer expires; a callback or the removal takes its next step. */
  datatype Step =
    | Write(path: string, content: Bytes, more: nat)
    | Delete(path: string)
    | Handle
    | Expire(timer: nat)
    | Begin(call: nat)
    | Hash(call: nat, modTime: int)
    | Store(call: nat, now: int)
    | Rehash(call: nat)
    | Record(call: nat)
    | LookUp
    | Drop(now: int)
    | Forget

  const START := World(map[], [], [], map[], [], Idle, View(EMPTY_DB, map[]))

  function Burst(p: string, n: nat): seq<Notice> {
    seq(n, _ => Touched(p))
  }

  /** schedule: a path with an entry has its timer reset, another gets a new one. */
  function Schedule(w: World, p: string): World {
    if p in w.entries && w.entries[p] < |w.timers|
    then w.(timers := w.timers[w.entries[p] := Timer(p, true)])
    else w.(timers := w.timers + [Timer(p, true)], entries := w.entries[p := |w.timers|])
  }

  /** cancel: only the timer of the entry is stopped. */
  function Cancel(w: World, p: string): World {
    if p in w.entries && w.entries[p] < |w.timers|
    then w.(timers := w.timers[w.entries[p] := Timer(p, false)], entries := w.entries - {p})
    else w
  }

  function Advance(w: World, c: nat, st: Stage): World
    requires c < |w.calls|
  {
    w.(calls := w.calls[c := w.calls[c].(stage := st)])
  }

  predicate Enabled(w: World, s: Step) {
    match s
    case Write(_, _, _) => true
    case Delete(p) => p in w.folder
    case Handle => w.events != [] && w.removal.Idle?
    case Expire(t) => t < |w.timers| && w.timers[t].armed
    case Begin(c) => c < |w.calls| && w.calls[c].stage.Waiting?
    case Hash(c, _) => c < |w.calls| && w.calls[c].stage.Begun?
    case Store(c, _) => c < |w.calls| && w.calls[c].stage.Hashed?
    case Rehash(c) => c < |w.calls| && w.calls[c].stage.Stored?
    case Record(c) => c < |w.calls| && w.calls[c].stage.Rehashed?
    case LookUp => w.removal.Looking?
    case Drop(_) => w.removal.Found?
    case Forget => w.removal.Dropped?
  }

  function Take(w: World): World
    requires w.events != []
  {
    var rest := w.(events := w.events[1..]);
    match w.events[0]
    case Touched(p) => Schedule(rest, p)
    case Gone(p) => Cancel(rest, p).(removal := Looking(p))
  }

  function Effect(w: World, self: Id, hash: Bytes -> Id, s: Step): World
    requires Enabled(w, s)
  {
    match s
    case Write(p, c, more) => w.(folder := w.folder[p := c], events := w.events + Burst(p, 1 + more))
    case Delete(p) => w.(folder := w.folder - {p}, events := w.events + [Gone(p)])
    case Handle => Take(w)
    case Expire(t) =>
      var p := w.timers[t].path;
      w.(timers := w.timers[t := Timer(p, false)], calls := w.calls + [Call(p, Waiting)])
    case Begin(c) => Advance(w, c, Begun).(entries := w.entries - {w.calls[c].path})
    case Hash(c, m) =>
      var p := w.calls[c].path;
      Advance(w, c, if p in w.folder then Hashed(w.folder[p], m) else Finished)
    case Store(c, now) =>
      var p, x, m := w.calls[c].path, w.calls[c].stage.content, w.calls[c].stage.modTime;
      if Encodable(m)
      then Advance(w, c, Stored(x)).(view := w.view.(db := PutLocal(w.view.db, self, EntryFor(hash(x), p, |x|, m), now)))
      else Advance(w, c, Finished)
    case Rehash(c) =>
      var p := w.calls[c].path;
      Advance(w, c, if p in w.folder then Rehashed(w.calls[c].stage.content, w.folder[p]) else Finished)
    case Record(c) =>
      Advance(w, c, Finished).(view := w.view.(index := w.view.index[hash(w.calls[c].stage.again) := w.calls[c].path]))
    case LookUp =>
      var found := LocalByPath(w.view.db, self, w.removal.path);
      w.(removal := if found.None? then Idle else Found(w.removal.path, found.value.fileID))
    case Drop(now) =>
      w.(removal := Dropped(w.removal.path, w.removal.file),
         view := w.view.(db := DeleteLocal(w.view.db, self, w.removal.file, now)))
    case Forget => w.(removal := Idle, view := w.view.(index := w.view.index - {w.removal.file}))
  }

  function Apply(w: World, self: Id, hash: Bytes -> Id, s: Step): World {
    if Enabled(w, s) then Effect(w, self, hash, s) else w
  }

  function Exec(self: Id, hash: Bytes -> Id, run: seq<Step>): World {
    if run == [] then START
    else Apply(Exec(self, hash, run[..|run| - 1]), self, hash, run[|run| - 1])
  }

  /** No event, timer, callback or removal is left. */
  predicate Quiet(w: World) {
    && w.events == [] && w.removal.Idle?
    && (forall t :: 0 <= t < |w.timers| ==> !w.timers[t].armed)
    && (forall c :: 0 <= c < |w.calls| ==> w.calls[c].stage.Finished?)
  }

  /** Catalog and index hold exactly the files of the folder. */
  ghost predicate Shows(w: World, self: Id, hash: Bytes -> Id) {
    && (forall f: Id, p: string :: At(w.view, f, p) <==> p in w.folder && hash(w.folder[p]) == f)
    && (forall f: Id, p: string :: LiveAs(w.view.db, self, f, p) <==> p in w.folder && hash(w.folder[p]) == f)
  }

  // ---- what a step writes ----

  datatype Setting = Setting(file: Id, path: Option<string>)

  /** The catalog entry a step puts (with its path) or deletes. */
  function CatalogWrite(w: World, hash: Bytes -> Id, s: Step): Option<Setting> {
    if !Enabled(w, s) then None
    else match s
      case Store(c, _) =>
        var st := w.calls[c].stage;
        if Encodable(st.modTime) then Some(Setting(hash(st.content), Some(w.calls[c].path))) else None
      case Drop(_) => Some(Setting(w.removal.file, None))
      case _ => None
  }

  /** The index entry a step sets or removes. */
  function IndexWrite(w: World, hash: Bytes -> Id, s: Step): Option<Setting> {
    if !Enabled(w, s) then None
    else match s
      case Record(c) => Some(Setting(hash(w.calls[c].stage.again), Some(w.calls[c].path)))
      case Forget => Some(Setting(w.removal.file, None))
      case _ => None
  }

  /** What a register holds after an optional write to it. */
  function Written(was: Option<string>, write: Option<Setting>, f: Id): Option<string> {
    if write.Some? && write.value.file == f then write.value.path else was
  }

  /** The path of file f in the catalog and in the index, if any. */
  function InCatalog(v: View, self: Id, f: Id): Option<string> {
    if LiveAt(v.db, self, f) then Some(Lookup(v.db, self, f).value.localPath) else None
  }

  function InIndex(v: View, f: Id): Option<string> {
    if f in v.index then Some(v.index[f]) else None
  }

  lemma StoreStep(w: World, self: Id, hash: Bytes -> Id, c: nat, now: int, f: Id)
    requires Valid(w.view.db) && Enabled(w, Store(c, now))
    ensures var v := Apply(w, self, hash, Store(c, now)).view;
            && Valid(v.db) && v.index == w.view.index
            && InCatalog(v, self, f) == Written(InCatalog(w.view, self, f), CatalogWrite(w, hash, Store(c, now)), f)
  {
    var p, x, m := w.calls[c].path, w.calls[c].stage.content, w.calls[c].stage.modTime;
    PutLocalLookup(w.view.db, self, EntryFor(hash(x), p, |x|, m), now, self, f);
  }

  lemma DropStep(w: World, self: Id, hash: Bytes -> Id, now: int, f: Id)
    requires Valid(w.view.db) && Enabled(w, Drop(now))
    ensures var v := Apply(w, self, hash, Drop(now)).view;
            && Valid(v.db) && v.index == w.view.index
            && InCatalog(v, self, f) == if f == w.removal.file then None else InCatalog(w.view, self, f)
  {
    DeleteLocalLookup(w.view.db, self, w.removal.file, now, self, f);
  }

  lemma ViewStep(w: World, self: Id, hash: Bytes -> Id, s: Step, f: Id)
    requires Valid(w.view.db)
    ensures var w' := Apply(w, self, hash, s);
            && Valid(w'.view.db)
            && InCatalog(w'.view, self, f) == Written(InCatalog(w.view, self, f), CatalogWrite(w, hash, s), f)
            && InIndex(w'.view, f) == Written(InIndex(w.view, f), IndexWrite(w, hash, s), f)
  {
    if Enabled(w, s) {
      match s
      case Store(c, now) => StoreStep(w, self, hash, c, now, f);
      case Drop(now) => DropStep(w, self, hash, now, f);
      case Record(_) => assert Apply(w, self, hash, s).view.db == w.view.db;
      case Forget => assert Apply(w, self, hash, s).view.db == w.view.db;
      case _ => assert Apply(w, self, hash, s).view == w.view;
    }
  }

  lemma {:induction false} AlwaysValid(self: Id, hash: Bytes -> Id, run: seq<Step>)
    ensures Valid(Exec(self, hash, run).view.db)
  {
    if run != [] {
      AlwaysValid(self, hash, run[..|run| - 1]);
      ViewStep(Exec(self, hash, run[..|run| - 1]), self, hash, run[|run| - 1], self);
    }
  }

  // ---- exactly when catalog and index agree ----

  function LastInCatalog(self: Id, hash: Bytes -> Id, run: seq<Step>, f: Id): Option<string> {
    if run == [] then None
    else
      var init := run[..|run| - 1];
      Written(LastInCatalog(self, hash, init, f), CatalogWrite(Exec(self, hash, init), hash, run[|run| - 1]), f)
  }

  function LastInIndex(self: Id, hash: Bytes -> Id, run: seq<Step>, f: Id): Option<string> {
    if run == [] then None
    else
      var init := run[..|run| - 1];
      Written(LastInIndex(self, hash, init, f), IndexWrite(Exec(self, hash, init), hash, run[|run| - 1]), f)
  }

  lemma {:induction false} LastWrites(self: Id, hash: Bytes -> Id, run: seq<Step>, f: Id)
    ensures var v := Exec(self, hash, run).view;
            && InCatalog(v, self, f) == LastInCatalog(self, hash, run, f)
            && InIndex(v, f) == LastInIndex(self, hash, run, f)
  {
    if run != [] {
      LastWrites(self, hash, run[..|run| - 1], f);
      AlwaysValid(self, hash, run[..|run| - 1]);
      ViewStep(Exec(self, hash, run[..|run| - 1]), self, hash, run[|run| - 1], f);
    }
  }

  lemma AgreePointwise(v: View, self: Id)
    ensures Agree(v, self) <==> forall f: Id :: InCatalog(v, self, f) == InIndex(v, f)
  {
    if Agree(v, self) {
      forall f: Id
        ensures InCatalog(v, self, f) == InIndex(v, f)
      {
        if LiveAt(v.db, self, f) {
          assert LiveAs(v.db, self, f, Lookup(v.db, self, f).value.localPath);
        }
        if f in v.index {
          assert LiveAs(v.db, self, f, v.index[f]);
        }
      }
    }
    if forall f: Id :: InCatalog(v, self, f) == InIndex(v, f) {
      forall f: Id, p: string
        ensures (f in v.index && v.index[f] == p) <==> LiveAs(v.db, self, f, p)
      {
        assert InCatalog(v, self, f) == InIndex(v, f);
      }
    }
  }

  /** The last transaction on the file's catalog entry and the last write to its index
      entry say the same. */
  predicate LastWritesMatch(self: Id, hash: Bytes -> Id, run: seq<Step>, f: Id) {
    LastInCatalog(self, hash, run, f) == LastInIndex(self, hash, run, f)
  }

  /** In every interleaving of callbacks and removals, the index is exactly hash -> path
      of the live local entries if and only if for every file the last transaction on its
      catalog entry and the last write to its index entry say the same. */
  lemma AgreeIffLastWritesMatch(self: Id, hash: Bytes -> Id, run: seq<Step>)
    ensures Agree(Exec(self, hash, run).view, self) <==> forall f: Id :: LastWritesMatch(self, hash, run, f)
  {
    var v := Exec(self, hash, run).view;
    AgreePointwise(v, self);
    forall f: Id
      ensures LastWritesMatch(self, hash, run, f) <==> InCatalog(v, self, f) == InIndex(v, f)
    {
      LastWrites(self, hash, run, f);
    }
  }

  // ---- conditions on a run ----

  /** Call c, or the removal when c is -1, has file g in hand. */
  predicate Holds(w: World, hash: Bytes -> Id, c: int, g: Id) {
    if c == -1 then (w.removal.Found? || w.removal.Dropped?) && w.removal.file == g
    else
      0 <= c < |w.calls| &&
      match w.calls[c].stage
      case Hashed(x, _) => hash(x) == g
      case Stored(x) => hash(x) == g
      case Rehashed(x, y) => hash(x) == g || hash(y) == g
      case _ => false
  }

  /** The step makes call .0 take up file .1. */
  function Acquires(w: World, self: Id, hash: Bytes -> Id, s: Step): Option<(int, Id)> {
    if !Enabled(w, s) then None
    else match s
      case Hash(c, _) => if w.calls[c].path in w.folder then Some((c, hash(w.folder[w.calls[c].path]))) else None
      case Rehash(c) => if w.calls[c].path in w.folder then Some((c, hash(w.folder[w.calls[c].path]))) else None
      case LookUp =>
        var found := LocalByPath(w.view.db, self, w.removal.path);
        if found.None? then None else Some((-1, found.value.fileID))
      case _ => None
  }

  ghost predicate Distinct(folder: map<string, Bytes>, hash: Bytes -> Id) {
    forall p, q :: p in folder && q in folder && p != q ==> hash(folder[p]) != hash(folder[q])
  }

  predicate Removing(w: World, p: string) {
    !w.removal.Idle? && w.removal.path == p
  }

  datatype Rule =
    | DistinctContents
    | StorableTimes
    | NoRewrite
    | NoHurry
    | NoClash
    | NoRace
    | NoRelist
    | Steady
    | StillThere

  ghost predicate Obeys(w: World, self: Id, hash: Bytes -> Id, s: Step, r: Rule) {
    match r
    // contents present together have distinct hashes
    case DistinctContents => Distinct(Apply(w, self, hash, s).folder, hash)
    // modification times can be stored
    case StorableTimes => s.Hash? ==> Encodable(s.modTime)
    // no file is rewritten in place
    case NoRewrite => s.Write? ==> s.path !in w.folder
    // no path is written before its removal has been handled
    case NoHurry => s.Write? ==> Gone(s.path) !in w.events && !Removing(w, s.path)
    // no call takes up a file that another call has in hand
    case NoClash =>
      var a := Acquires(w, self, hash, s);
      a.Some? ==> forall c :: Holds(w, hash, c, a.value.1) ==> c == a.value.0
    // no removal looks up a path that a callback has hashed and not stored yet
    case NoRace =>
      s.LookUp? && Enabled(w, s) ==>
        forall c :: 0 <= c < |w.calls| && w.calls[c].path == w.removal.path ==> !w.calls[c].stage.Hashed?
    // no callback stores a path that is listed under other content
    case NoRelist =>
      s.Store? && Enabled(w, s) && Encodable(w.calls[s.call].stage.modTime) ==>
        forall f: Id :: LiveAs(w.view.db, self, f, w.calls[s.call].path) ==> f == hash(w.calls[s.call].stage.content)
    // a file found by the second hash has the content of the first
    case Steady =>
      s.Rehash? && Enabled(w, s) && w.calls[s.call].path in w.folder ==>
        hash(w.folder[w.calls[s.call].path]) == hash(w.calls[s.call].stage.content)
    // no file is gone when it is hashed for the second time
    case StillThere => s.Rehash? && Enabled(w, s) ==> w.calls[s.call].path in w.folder
  }

  /** Every step of the run obeys every one of the rules. */
  ghost predicate Along(self: Id, hash: Bytes -> Id, run: seq<Step>, rules: set<Rule>) {
    run != [] ==>
      && Along(self, hash, run[..|run| - 1], rules)
      && forall r :: r in rules ==> Obeys(Exec(self, hash, run[..|run| - 1]), self, hash, run[|run| - 1], r)
  }

  lemma {:induction false} AlongFewer(self: Id, hash: Bytes -> Id, run: seq<Step>, rules: set<Rule>, fewer: set<Rule>)
    requires Along(self, hash, run, rules) && fewer <= rules
    ensures Along(self, hash, run, fewer)
  {
    if run != [] {
      AlongFewer(self, hash, run[..|run| - 1], rules, fewer);
    }
  }

  lemma AlongDistinct(self: Id, hash: Bytes -> Id, run: seq<Step>, rules: set<Rule>)
    requires Along(self, hash, run, rules) && DistinctContents in rules
    ensures Distinct(Exec(self, hash, run).folder, hash)
  {
    if run != [] {
      assert Obeys(Exec(self, hash, run[..|run| - 1]), self, hash, run[|run| - 1], DistinctContents);
    }
  }

  // ---- one call per file ----

  ghost predicate Unique(w: World, hash: Bytes -> Id) {
    forall c: int, d: int, g: Id :: Holds(w, hash, c, g) && Holds(w, hash, d, g) ==> c == d
  }

  lemma HoldStep(w: World, self: Id, hash: Bytes -> Id, s: Step, c: int, g: Id)
    requires Holds(Apply(w, self, hash, s), hash, c, g)
    ensures Holds(w, hash, c, g) || Acquires(w, self, hash, s) == Some((c, g))
  {
    if Enabled(w, s) {
      match s
      case Handle =>
        assert Apply(w, self, hash, s).calls == w.calls;
      case _ =>
    }
  }

  lemma UniqueStep(w: World, self: Id, hash: Bytes -> Id, s: Step)
    requires Unique(w, hash) && Obeys(w, self, hash, s, NoClash)
    ensures Unique(Apply(w, self, hash, s), hash)
  {
    var w' := Apply(w, self, hash, s);
    forall c: int, d: int, g: Id | Holds(w', hash, c, g) && Holds(w', hash, d, g)
      ensures c == d
    {
      HoldStep(w, self, hash, s, c, g);
      HoldStep(w, self, hash, s, d, g);
    }
  }

  lemma {:induction false} AlwaysUnique(self: Id, hash: Bytes -> Id, run: seq<Step>, rules: set<Rule>)
    requires Along(self, hash, run, rules) && NoClash in rules
    ensures Unique(Exec(self, hash, run), hash)
  {
    if run != [] {
      var init := run[..|run| - 1];
      AlwaysUnique(self, hash, init, rules);
      assert Obeys(Exec(self, hash, init), self, hash, run[|run| - 1], NoClash);
      UniqueStep(Exec(self, hash, init), self, hash, run[|run| - 1]);
    }
  }

  /** The call that takes a step on a file. */
  function Actor(s: Step): int {
    match s
    case Store(c, _) => c
    case Record(c) => c
    case _ => -1
  }

  /** A call writes only entries of the file it has in hand. */
  lemma WriterHolds(w: World, hash: Bytes -> Id, s: Step)
    ensures CatalogWrite(w, hash, s).Some? ==> Holds(w, hash, Actor(s), CatalogWrite(w, hash, s).value.file)
    ensures IndexWrite(w, hash, s).Some? ==> Holds(w, hash, Actor(s), IndexWrite(w, hash, s).value.file)
  {
  }
}
