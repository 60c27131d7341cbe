/** The watcher's debouncer as a discrete-event machine, against a declarative
    specification of when a path is indexed. Times are in milliseconds. */
module Debouncer {

  const DELAY := 500

  type Path = string

  /** fsnotify may report several operations at once. */
  datatype Ops = Ops(create: bool, write: bool, remove: bool, rename: bool)

  datatype Kind = Touch | Gone | Ignored

  /** The switch of handleEvent: create and write win over remove and rename. */
  function KindOf(o: Ops): Kind {
    if o.create || o.write then Touch else if o.remove || o.rename then Gone else Ignored
  }

  datatype Event = Event(at: int, path: Path, ops: Ops)

  /** Pending timers with their due times, and the indexing callbacks run so far. */
  datatype State = State(timers: map<Path, int>, indexed: set<(Path, int)>)

  const IDLE := State(map[], {})

  /** Every timer due by time t runs its callback, at its due time, and is gone. */
  function Advance(s: State, t: int): State {
    State(map p | p in s.timers && s.timers[p] > t :: s.timers[p],
          s.indexed + set p | p in s.timers && s.timers[p] <= t :: (p, s.timers[p]))
  }

  /** schedule stops and resets a pending timer, or starts one; cancel stops it. */
  function React(s: State, e: Event): State {
    match KindOf(e.ops)
    case Touch => s.(timers := s.timers[e.path := e.at + DELAY])
    case Gone => s.(timers := s.timers - {e.path})
    case Ignored => s
  }

  function Run(trace: seq<Event>): State {
    if trace == [] then IDLE
    else React(Advance(Run(trace[..|trace| - 1]), trace[|trace| - 1].at), trace[|trace| - 1])
  }

  /** The state at time `now`, after the whole trace. */
  function At(trace: seq<Event>, now: int): State {
    Advance(Run(trace), now)
  }

  ghost predicate InTime(trace: seq<Event>, now: int) {
    && (forall i, j :: 0 <= i < j < |trace| ==> trace[i].at <= trace[j].at)
    && (forall i :: 0 <= i < |trace| ==> trace[i].at <= now)
  }

  /** A create or a write, whatever else is reported with it. */
  predicate Touches(e: Event, p: Path, at: int) {
    e.path == p && (e.ops.create || e.ops.write) && e.at == at
  }

  /** A create or a write, or else a remove or a rename. */
  predicate Concerns(e: Event, p: Path) {
    e.path == p && (e.ops.create || e.ops.write || e.ops.remove || e.ops.rename)
  }

  /** p is to be indexed at t: some create or write on p happened at t - 500 and no
      later event on p happened before t. */
  ghost predicate Due(trace: seq<Event>, p: Path, t: int) {
    exists i :: 0 <= i < |trace| && Touches(trace[i], p, t - 500)
                && forall j :: i < j < |trace| && Concerns(trace[j], p) ==> trace[j].at >= t
  }

  /** How one more event changes what is due. */
  lemma DueSnoc(trace: seq<Event>, e: Event, p: Path, t: int)
    ensures Due(trace + [e], p, t) <==>
              || (Due(trace, p, t) && (Concerns(e, p) ==> e.at >= t))
              || Touches(e, p, t - 500)
  {
    var all := trace + [e];
    if Touches(e, p, t - 500) {
      assert all[|trace|] == e;
    }
    if Due(trace, p, t) && (Concerns(e, p) ==> e.at >= t) {
      var i :| 0 <= i < |trace| && Touches(trace[i], p, t - 500)
               && forall j :: i < j < |trace| && Concerns(trace[j], p) ==> trace[j].at >= t;
      assert Touches(all[i], p, t - 500);
      assert forall j :: i < j < |all| && Concerns(all[j], p) ==> all[j].at >= t;
    }
    if Due(all, p, t) {
      var i :| 0 <= i < |all| && Touches(all[i], p, t - 500)
               && forall j :: i < j < |all| && Concerns(all[j], p) ==> all[j].at >= t;
      if i < |trace| {
        assert Touches(trace[i], p, t - 500);
        assert forall j :: i < j < |trace| && Concerns(trace[j], p) ==> all[j].at >= t && trace[j] == all[j];
        assert all[|trace|] == e;
      }
    }
  }

  ghost predicate Refines(trace: seq<Event>, now: int, p: Path, t: int) {
    var s := At(trace, now);
    && ((p, t) in s.indexed <==> Due(trace, p, t) && t <= now)
    && (p in s.timers && s.timers[p] == t <==> Due(trace, p, t) && t > now)
  }

  lemma RefinesSnoc(trace: seq<Event>, e: Event, now: int, p: Path, t: int)
    requires e.at <= now && Refines(trace, e.at, p, t)
    ensures Refines(trace + [e], now, p, t)
  {
    DueSnoc(trace, e, p, t);
    var all := trace + [e];
    assert all[..|all| - 1] == trace && all[|all| - 1] == e;
    var before := At(trace, e.at);
    var after := React(before, e);
    assert Run(all) == after;
    AdvanceAt(before, e.at, p, t);
    AdvanceAt(after, now, p, t);
  }

  lemma AdvanceAt(s: State, now: int, p: Path, t: int)
    ensures (p, t) in Advance(s, now).indexed <==>
              (p, t) in s.indexed || (p in s.timers && s.timers[p] == t && t <= now)
    ensures p in Advance(s, now).timers && Advance(s, now).timers[p] == t <==>
              p in s.timers && s.timers[p] == t && t > now
  {
  }

  /** The debouncer refines its specification on every timed trace: p is indexed at t if
      and only if a create or write on p happened at t - 500 ms and nothing happened to
      p in between; the pending timers are exactly the indexings still to come. */
  lemma {:induction false} DebouncerRefines(trace: seq<Event>, now: int, p: Path, t: int)
    requires InTime(trace, now)
    ensures Refines(trace, now, p, t)
  {
    if trace != [] {
      var init, last := trace[..|trace| - 1], trace[|trace| - 1];
      DebouncerRefines(init, last.at, p, t);
      RefinesSnoc(init, last, now, p, t);
      assert trace == init + [last];
    }
  }

  /** At most one indexing of a path is ever pending. */
  lemma OnePending(trace: seq<Event>, now: int, p: Path, t: int, u: int)
    requires InTime(trace, now) && Due(trace, p, t) && Due(trace, p, u) && t > now && u > now
    ensures t == u
  {
    DebouncerRefines(trace, now, p, t);
    DebouncerRefines(trace, now, p, u);
  }

  /** The debouncer's timer map and its two operations. */
  class Timers {
    var timers: map<Path, int>
    var indexed: set<(Path, int)>

    function Abs(): State
      reads this
    {
      State(timers, indexed)
    }

    constructor ()
      ensures Abs() == IDLE
    {
      timers, indexed := map[], {};
    }

    method Schedule(p: Path, now: int)
      modifies this
      ensures Abs() == State(old(timers)[p := now + DELAY], old(indexed))
    {
      timers := timers[p := now + DELAY];
    }

    method Cancel(p: Path)
      modifies this
      ensures Abs() == State(old(timers) - {p}, old(indexed))
    {
      if p in timers {
        timers := timers - {p};
      }
    }

    /** The callback: drop the timer, then index the path. */
    method Fire(p: Path)
      requires p in timers
      modifies this
      ensures Abs() == State(old(timers) - {p}, old(indexed) + {(p, old(timers)[p])})
    {
      var due := timers[p];
      timers := timers - {p};
      indexed := indexed + {(p, due)};
    }

    /** Callbacks run at their due times, in any order among themselves. */
    method FireDue(now: int)
      modifies this
      ensures Abs() == Advance(old(Abs()), now)
    {
      var due := set p | p in timers && timers[p] <= now;
      while due != {}
        invariant forall p :: p in due <==> p in timers && timers[p] <= now
        invariant Advance(Abs(), now) == Advance(old(Abs()), now)
        decreases due
      {
        var p :| p in due;
        ghost var before := Abs();
        Fire(p);
        FireOne(before, now, p);
        due := due - {p};
      }
      NothingDue(Abs(), now);
    }

    method HandleEvent(e: Event)
      modifies this
      ensures Abs() == React(old(Abs()), e)
    {
      if e.ops.create || e.ops.write {
        Schedule(e.path, e.at);
      } else if e.ops.remove || e.ops.rename {
        Cancel(e.path);
      }
    }

    /** Playing a whole trace through the timers. */
    method Play(trace: seq<Event>, now: int)
      requires Abs() == IDLE
      modifies this
      ensures Abs() == At(trace, now)
    {
      for i := 0 to |trace|
        invariant Abs() == Run(trace[..i])
      {
        assert trace[..i + 1][..i] == trace[..i];
        FireDue(trace[i].at);
        HandleEvent(trace[i]);
      }
      assert trace[..|trace|] == trace;
      FireDue(now);
    }
  }

  lemma FireOne(s: State, now: int, p: Path)
    requires p in s.timers && s.timers[p] <= now
    ensures Advance(State(s.timers - {p}, s.indexed + {(p, s.timers[p])}), now) == Advance(s, now)
  {
    var s' := State(s.timers - {p}, s.indexed + {(p, s.timers[p])});
    assert Advance(s', now).timers == Advance(s, now).timers;
    forall q: Path, t: int
      ensures (q, t) in Advance(s', now).indexed <==> (q, t) in Advance(s, now).indexed
    {
      AdvanceAt(s, now, q, t);
      AdvanceAt(s', now, q, t);
    }
    assert Advance(s', now).indexed == Advance(s, now).indexed;
  }

  lemma NothingDue(s: State, now: int)
    requires forall p :: p in s.timers ==> s.timers[p] > now
    ensures Advance(s, now) == s
  {
    assert Advance(s, now).timers == s.timers;
    assert Advance(s, now).indexed == s.indexed;
  }
}
