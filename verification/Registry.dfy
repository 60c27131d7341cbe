/** A table of live sessions keyed by node ID, entered by overwriting and left by
    deleting the key: the relay's registry and the handler's peer connections. */
module Registry {
  import opened Basics

  datatype Session = Session(id: Id, running: bool)

  datatype Table = Table(sessions: seq<Session>, entries: map<Id, nat>)

  /** Serve registers on entry and deregisters, by ID alone, on exit. */
  datatype Event = Enter(id: Id) | Exit(session: nat)

  const EMPTY := Table([], map[])

  predicate Running(t: Table, s: nat) {
    s < |t.sessions| && t.sessions[s].running
  }

  function Apply(t: Table, e: Event): Table {
    match e
    case Enter(id) => Table(t.sessions + [Session(id, true)], t.entries[id := |t.sessions|])
    case Exit(s) =>
      if Running(t, s)
      then Table(t.sessions[s := t.sessions[s].(running := false)], t.entries - {t.sessions[s].id})
      else t
  }

  function Exec(run: seq<Event>): Table {
    if run == [] then EMPTY else Apply(Exec(run[..|run| - 1]), run[|run| - 1])
  }

  predicate Present(t: Table, s: nat)
    requires s < |t.sessions|
  {
    t.sessions[s].id in t.entries && t.entries[t.sessions[s].id] == s
  }

  ghost predicate Sound(t: Table) {
    forall id :: id in t.entries ==> Running(t, t.entries[id]) && t.sessions[t.entries[id]].id == id
  }

  /** Every entry belongs to a session that is still running and matches its key. */
  lemma {:induction false} EntriesAreLive(run: seq<Event>)
    ensures Sound(Exec(run))
  {
    if run != [] {
      EntriesAreLive(run[..|run| - 1]);
    }
  }

  /** Another session with the same ID enters or exits while s is running. */
  predicate Evicts(t: Table, e: Event, s: nat) {
    && Running(t, s)
    && match e
       case Enter(id) => id == t.sessions[s].id
       case Exit(other) => other != s && Running(t, other) && t.sessions[other].id == t.sessions[s].id
  }

  predicate Evicted(run: seq<Event>, s: nat) {
    run != [] &&
    var init, last := run[..|run| - 1], run[|run| - 1];
    Evicted(init, s) || Evicts(Exec(init), last, s)
  }

  lemma {:induction false} NotYetEntered(run: seq<Event>, s: nat)
    requires s >= |Exec(run).sessions|
    ensures !Evicted(run, s)
  {
    if run != [] {
      NotYetEntered(run[..|run| - 1], s);
    }
  }

  /** A running session is in the table if and only if no other session with its ID
      entered or exited since it entered. */
  lemma {:induction false} PresentIffNotEvicted(run: seq<Event>, s: nat)
    requires Running(Exec(run), s)
    ensures Present(Exec(run), s) <==> !Evicted(run, s)
  {
    var init := run[..|run| - 1];
    EntriesAreLive(init);
    if s < |Exec(init).sessions| {
      assert Running(Exec(init), s);
      PresentIffNotEvicted(init, s);
    } else {
      NotYetEntered(init, s);
    }
  }

  /** No session enters while another with its ID is running. */
  predicate NoOverlap(run: seq<Event>) {
    run != [] ==>
      var init, last := run[..|run| - 1], run[|run| - 1];
      NoOverlap(init) && (last.Enter? ==> !InUse(Exec(init), last.id))
  }

  predicate InUse(t: Table, id: Id) {
    exists s :: 0 <= s < |t.sessions| && t.sessions[s] == Session(id, true)
  }

  ghost predicate DistinctIds(t: Table) {
    forall r, s :: 0 <= r < s < |t.sessions| && t.sessions[r].running && t.sessions[s].running
      ==> t.sessions[r].id != t.sessions[s].id
  }

  lemma {:induction false} NoOverlapDistinct(run: seq<Event>)
    requires NoOverlap(run)
    ensures DistinctIds(Exec(run))
  {
    if run != [] {
      var init, last := run[..|run| - 1], run[|run| - 1];
      NoOverlapDistinct(init);
      var t, t' := Exec(init), Exec(run);
      forall r, s | 0 <= r < s < |t'.sessions| && t'.sessions[r].running && t'.sessions[s].running
        ensures t'.sessions[r].id != t'.sessions[s].id
      {
        if s < |t.sessions| {
          assert t.sessions[r].running && t.sessions[s].running;
        } else {
          assert t.sessions[r] == Session(t.sessions[r].id, true);
        }
      }
    }
  }

  lemma {:induction false} NoOverlapNoEviction(run: seq<Event>, s: nat)
    requires NoOverlap(run)
    ensures !Evicted(run, s)
  {
    if run != [] {
      var init, last := run[..|run| - 1], run[|run| - 1];
      NoOverlapNoEviction(init, s);
      NoOverlapDistinct(init);
      var t := Exec(init);
      if Running(t, s) && last.Enter? {
        assert t.sessions[s] == Session(t.sessions[s].id, true);
      }
    }
  }

  /** Without overlapping sessions of one ID, every running session is in the table. */
  lemma RunningIsPresent(run: seq<Event>, s: nat)
    requires NoOverlap(run) && Running(Exec(run), s)
    ensures Present(Exec(run), s)
  {
    NoOverlapNoEviction(run, s);
    PresentIffNotEvicted(run, s);
  }

  /** A reconnect that overlaps the old session: when the old one exits it takes the
      new one's entry along, and the live session is not found any more. */
  lemma OverlapDropsLiveSession(id: Id)
    ensures var t := Exec([Enter(id), Enter(id), Exit(0)]);
            Running(t, 1) && t.sessions[1].id == id && id !in t.entries
  {
    var one, two, all := [Enter(id)], [Enter(id), Enter(id)], [Enter(id), Enter(id), Exit(0)];
    assert one[..0] == [] && two[..1] == one && all[..2] == two;
    assert Exec(one) == Table([Session(id, true)], map[id := 0]);
    assert Exec(two) == Table([Session(id, true), Session(id, true)], map[id := 1]);
  }

  /** The table as the handler and the relay keep it, under its mutex; `next` numbers
      the connections in the order they are served. */
  class LiveTable {
    var entries: map<Id, nat>
    var next: nat
    ghost var history: seq<Event>

    ghost predicate Valid()
      reads this
    {
      entries == Exec(history).entries && next == |Exec(history).sessions|
    }

    constructor ()
      ensures Valid() && history == []
    {
      entries, next, history := map[], 0, [];
    }

    /** registerConn: the new connection replaces whatever had the ID. */
    method Register(id: Id) returns (session: nat)
      requires Valid()
      modifies this
      ensures Valid() && history == old(history) + [Enter(id)]
      ensures Running(Exec(history), session) && Present(Exec(history), session)
    {
      session := next;
      entries := entries[id := session];
      next := next + 1;
      history := history + [Enter(id)];
      assert history[..|history| - 1] == old(history);
    }

    /** unregisterConn: the entry is deleted by ID, whoever holds it. */
    method Unregister(id: Id, session: nat)
      requires Valid() && Running(Exec(history), session) && Exec(history).sessions[session].id == id
      modifies this
      ensures Valid() && history == old(history) + [Exit(session)]
    {
      entries := entries - {id};
      history := history + [Exit(session)];
      assert history[..|history| - 1] == old(history);
    }

    /** BroadcastCatalog: the snapshot of the table reaches exactly the running
        sessions that no other session of their ID has evicted. */
    method Broadcast() returns (reached: set<nat>)
      requires Valid()
      ensures forall s: nat :: s in reached <==> Running(Exec(history), s) && !Evicted(history, s)
    {
      reached := Visit(entries);
      forall s: nat
        ensures s in entries.Values <==> Running(Exec(history), s) && !Evicted(history, s)
      {
        EntryIff(history, s);
      }
    }
  }

  lemma EntryIff(run: seq<Event>, s: nat)
    ensures s in Exec(run).entries.Values <==> Running(Exec(run), s) && !Evicted(run, s)
  {
    EntriesAreLive(run);
    if Running(Exec(run), s) {
      PresentIffNotEvicted(run, s);
    }
  }

  lemma DropKey(m: map<Id, nat>, id: Id)
    requires id in m
    ensures (m - {id}).Values + {m[id]} == m.Values
  {
    forall v | v in m.Values
      ensures v in (m - {id}).Values + {m[id]}
    {
      var k :| k in m && m[k] == v;
      assert k != id ==> k in m - {id} && (m - {id})[k] == v;
    }
  }

  /** The loop over the snapshot, in any order. */
  method Visit(snapshot: map<Id, nat>) returns (reached: set<nat>)
    ensures reached == snapshot.Values
  {
    reached := {};
    var todo := snapshot;
    while todo != map[]
      invariant todo.Keys <= snapshot.Keys && forall id :: id in todo ==> todo[id] == snapshot[id]
      invariant reached + todo.Values == snapshot.Values
      decreases |todo|
    {
      var id :| id in todo;
      reached := reached + {todo[id]};
      DropKey(todo, id);
      todo := todo - {id};
    }
  }
}
