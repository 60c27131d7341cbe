/** The relay server with any number of sessions: registration, the three-step
    rendezvous push and deregistration, each step atomic between locks and sends. */
module RelayServer {
  import opened Basics
  import R = Registry
  import RelayClient

  type Info = RelayClient.Rendezvous

  /** Where a session's Serve is: handleConnect looks the target up, then sends to the
      target, then to the requester. */
  datatype Phase =
    | Confirming
    | Serving
    | ToTarget(target: nat, wanted: Id)
    | ToRequester(target: nat, wanted: Id)
    | Ended

  datatype Session = Session(nodeID: Id, publicKey: Bytes, externalAddr: string, phase: Phase)

  /** What was written to a session's connection. */
  datatype Write =
    | Confirm(to: nat)
    | Push(to: nat, requester: nat, info: Info)
    | Answer(to: nat, wanted: Id, target: nat, info: Info)
    | Refuse(to: nat, reason: string)

  datatype Server = Server(sessions: seq<Session>, table: R.Table, log: seq<Write>)

  /** `ok` says whether the send of the step succeeds, `told` whether the requester
      is reached by the refusal that follows a failed push. */
  datatype Step =
    | Open(nodeId: Bytes, publicKey: Bytes, externalAddr: string)
    | SendConfirm(s: nat, ok: bool)
    | Connect(s: nat, target: Bytes, ok: bool)
    | SendTarget(s: nat, ok: bool, told: bool)
    | SendRequester(s: nat, ok: bool)
    | Leave(s: nat)

  const FRESH := Server([], R.EMPTY, [])

  function InfoOf(s: Session): Info {
    RelayClient.Rendezvous(s.nodeID, s.publicKey, s.externalAddr)
  }

  function Move(v: Server, s: nat, p: Phase): Server
    requires s < |v.sessions|
  {
    v.(sessions := v.sessions[s := v.sessions[s].(phase := p)])
  }

  function Logged(v: Server, w: Write, ok: bool): Server {
    if ok then v.(log := v.log + [w]) else v
  }

  function Deregister(v: Server, s: nat): Server
    requires s < |v.sessions|
  {
    Move(v, s, Ended).(table := R.Apply(v.table, R.Exit(s)))
  }

  function HandleConnect(v: Server, s: nat, target: Bytes, ok: bool): Server
    requires s < |v.sessions|
  {
    if |target| != 32 then Logged(v, Refuse(s, "invalid_request"), ok)
    else if target !in v.table.entries then Logged(v, Refuse(s, "peer_not_registered"), ok)
    else Move(v, s, ToTarget(v.table.entries[target], target))
  }

  function Apply(v: Server, step: Step): Server {
    match step
    case Open(id, key, addr) =>
      if |id| != 32 || |key| != 32 then v
      else v.(sessions := v.sessions + [Session(id, key, addr, Confirming)], table := R.Apply(v.table, R.Enter(id)))
    case SendConfirm(s, ok) =>
      if !(s < |v.sessions| && v.sessions[s].phase.Confirming?) then v
      else if ok then Logged(Move(v, s, Serving), Confirm(s), true)
      else Deregister(v, s)
    case Connect(s, target, ok) =>
      if s < |v.sessions| && v.sessions[s].phase.Serving? then HandleConnect(v, s, target, ok) else v
    case SendTarget(s, ok, told) =>
      if !(s < |v.sessions| && v.sessions[s].phase.ToTarget?) then v
      else
        var p := v.sessions[s].phase;
        if ok then Logged(Move(v, s, ToRequester(p.target, p.wanted)), Push(p.target, s, InfoOf(v.sessions[s])), true)
        else Logged(Move(v, s, Serving), Refuse(s, "peer_unreachable"), told)
    case SendRequester(s, ok) =>
      if !(s < |v.sessions| && v.sessions[s].phase.ToRequester?) then v
      else
        var p := v.sessions[s].phase;
        if p.target < |v.sessions|
        then Logged(Move(v, s, Serving), Answer(s, p.wanted, p.target, InfoOf(v.sessions[p.target])), ok)
        else v
    case Leave(s) =>
      if s < |v.sessions| && v.sessions[s].phase.Serving? then Deregister(v, s) else v
  }

  function Exec(run: seq<Step>): Server {
    if run == [] then FRESH else Apply(Exec(run[..|run| - 1]), run[|run| - 1])
  }

  // ---- the registry of the server is the table of module Registry ----

  /** The table events of a step. */
  function Events(v: Server, step: Step): seq<R.Event> {
    match step
    case Open(id, key, _) => if |id| == 32 && |key| == 32 then [R.Enter(id)] else []
    case SendConfirm(s, ok) => if s < |v.sessions| && v.sessions[s].phase.Confirming? && !ok then [R.Exit(s)] else []
    case Leave(s) => if s < |v.sessions| && v.sessions[s].phase.Serving? then [R.Exit(s)] else []
    case _ => []
  }

  function TableRun(run: seq<Step>): seq<R.Event> {
    if run == [] then []
    else TableRun(run[..|run| - 1]) + Events(Exec(run[..|run| - 1]), run[|run| - 1])
  }

  lemma {:induction false} TableIsRegistry(run: seq<Step>)
    ensures Exec(run).table == R.Exec(TableRun(run))
  {
    if run != [] {
      var init, last := run[..|run| - 1], run[|run| - 1];
      TableIsRegistry(init);
      TableStep(Exec(init), last);
      var es := Events(Exec(init), last);
      if es == [] {
        assert TableRun(init) + es == TableRun(init);
      } else {
        ExecSnoc(TableRun(init), es[0]);
      }
    }
  }

  lemma TableStep(v: Server, step: Step)
    ensures var es := Events(v, step);
            && (es == [] || es == [es[0]])
            && Apply(v, step).table == if es == [] then v.table else R.Apply(v.table, es[0])
  {
  }

  lemma ExecSnoc(run: seq<R.Event>, e: R.Event)
    ensures R.Exec(run + [e]) == R.Apply(R.Exec(run), e)
  {
    assert (run + [e])[..|run|] == run;
  }

  // ---- what every run keeps ----

  /** Sessions of the server and of the table are the same sessions. */
  ghost predicate Aligned(v: Server) {
    && |v.sessions| == |v.table.sessions|
    && forall s :: 0 <= s < |v.sessions| ==>
         v.table.sessions[s] == R.Session(v.sessions[s].nodeID, !v.sessions[s].phase.Ended?)
  }

  predicate Pushed(log: seq<Write>, n: int, target: nat, requester: nat, info: Info)
    requires n <= |log|
  {
    exists j :: 0 <= j < n && log[j] == Push(target, requester, info)
  }

  /** A rendezvous carries the identity of a session; an answer names the wanted node
      and comes after the push of the requester to that same session. */
  ghost predicate WriteOk(v: Server, i: nat)
    requires i < |v.log|
  {
    match v.log[i]
    case Confirm(to) => to < |v.sessions|
    case Refuse(to, _) => to < |v.sessions|
    case Push(to, r, info) => to < |v.sessions| && r < |v.sessions| && info == InfoOf(v.sessions[r])
    case Answer(to, wanted, t, info) =>
      && to < |v.sessions| && t < |v.sessions|
      && info == InfoOf(v.sessions[t]) && v.sessions[t].nodeID == wanted
      && Pushed(v.log, i, t, to, InfoOf(v.sessions[to]))
  }

  ghost predicate PhaseOk(v: Server, s: nat)
    requires s < |v.sessions|
  {
    match v.sessions[s].phase
    case ToTarget(t, wanted) => t < |v.sessions| && v.sessions[t].nodeID == wanted
    case ToRequester(t, wanted) =>
      t < |v.sessions| && v.sessions[t].nodeID == wanted
      && Pushed(v.log, |v.log|, t, s, InfoOf(v.sessions[s]))
    case _ => true
  }

  ghost predicate Inv(v: Server) {
    && Aligned(v) && R.Sound(v.table)
    && (forall i: nat :: i < |v.log| ==> WriteOk(v, i))
    && (forall s: nat :: s < |v.sessions| ==> PhaseOk(v, s))
  }

  /** A step that appends writes and moves phases keeps the facts about old writes. */
  lemma Extends(v: Server, v': Server)
    requires Inv(v)
    requires |v.sessions| <= |v'.sessions| && v.log <= v'.log
    requires forall s :: 0 <= s < |v.sessions| ==> InfoOf(v'.sessions[s]) == InfoOf(v.sessions[s])
    ensures forall i: nat :: i < |v.log| ==> WriteOk(v', i)
    ensures forall s: nat :: s < |v.sessions| && v'.sessions[s].phase == v.sessions[s].phase ==> PhaseOk(v', s)
  {
    forall i: nat | i < |v.log|
      ensures WriteOk(v', i)
    {
      assert WriteOk(v, i);
      if v.log[i].Answer? {
        var w := v.log[i];
        var j :| 0 <= j < i && v.log[j] == Push(w.target, w.to, InfoOf(v.sessions[w.to]));
        assert v'.log[j] == v.log[j];
      }
    }
    forall s: nat | s < |v.sessions| && v'.sessions[s].phase == v.sessions[s].phase
      ensures PhaseOk(v', s)
    {
      assert PhaseOk(v, s);
      var p := v.sessions[s].phase;
      if p.ToRequester? {
        var j :| 0 <= j < |v.log| && v.log[j] == Push(p.target, s, InfoOf(v.sessions[s]));
        assert v'.log[j] == v.log[j];
      }
    }
  }

  lemma StepSendTarget(v: Server, s: nat, ok: bool, told: bool)
    requires Inv(v) && s < |v.sessions| && v.sessions[s].phase.ToTarget?
    ensures Inv(Apply(v, SendTarget(s, ok, told)))
  {
    var v' := Apply(v, SendTarget(s, ok, told));
    assert PhaseOk(v, s);
    Extends(v, v');
    if ok {
      assert v'.log[|v.log|] == Push(v.sessions[s].phase.target, s, InfoOf(v.sessions[s]));
      assert PhaseOk(v', s);
    }
    forall i: nat | i < |v'.log|
      ensures WriteOk(v', i)
    {
      if i == |v.log| {
        assert v'.log[i].Push? || v'.log[i].Refuse?;
      }
    }
  }

  lemma StepSendRequester(v: Server, s: nat, ok: bool)
    requires Inv(v) && s < |v.sessions| && v.sessions[s].phase.ToRequester?
    ensures Inv(Apply(v, SendRequester(s, ok)))
  {
    var v' := Apply(v, SendRequester(s, ok));
    assert PhaseOk(v, s);
    Extends(v, v');
    var p := v.sessions[s].phase;
    var j :| 0 <= j < |v.log| && v.log[j] == Push(p.target, s, InfoOf(v.sessions[s]));
    if ok {
      assert v'.log[j] == v.log[j];
      assert WriteOk(v', |v.log|);
    }
  }

  lemma StepConnect(v: Server, s: nat, target: Bytes, ok: bool)
    requires Inv(v) && s < |v.sessions| && v.sessions[s].phase.Serving?
    ensures Inv(HandleConnect(v, s, target, ok))
  {
    var v' := HandleConnect(v, s, target, ok);
    Extends(v, v');
    if |target| == 32 && target in v.table.entries {
      assert R.Running(v.table, v.table.entries[target]);
      assert PhaseOk(v', s);
    } else if ok {
      assert WriteOk(v', |v.log|);
    }
  }

  lemma StepDeregister(v: Server, s: nat)
    requires Inv(v) && s < |v.sessions| && !v.sessions[s].phase.Ended?
    ensures Inv(Deregister(v, s))
  {
    Extends(v, Deregister(v, s));
  }

  lemma ApplyInv(v: Server, step: Step)
    requires Inv(v)
    ensures Inv(Apply(v, step))
  {
    match step
    case Open(_, _, _) => Extends(v, Apply(v, step));
    case SendConfirm(s, ok) =>
      if s < |v.sessions| && v.sessions[s].phase.Confirming? {
        if ok { Extends(v, Apply(v, step)); } else { StepDeregister(v, s); }
      }
    case Connect(s, target, ok) =>
      if s < |v.sessions| && v.sessions[s].phase.Serving? { StepConnect(v, s, target, ok); }
    case SendTarget(s, ok, told) =>
      if s < |v.sessions| && v.sessions[s].phase.ToTarget? { StepSendTarget(v, s, ok, told); }
    case SendRequester(s, ok) =>
      if s < |v.sessions| && v.sessions[s].phase.ToRequester? { StepSendRequester(v, s, ok); }
    case Leave(s) =>
      if s < |v.sessions| && v.sessions[s].phase.Serving? { StepDeregister(v, s); }
  }

  /** In every run: every rendezvous written carries the key and address of a session;
      one written to a requester names the node it asked for, and was preceded by one
      naming the requester on that node's connection; every registry entry belongs to
      a session still served under that ID. */
  lemma {:induction false} RelayIsSafe(run: seq<Step>)
    ensures Inv(Exec(run))
  {
    if run != [] {
      RelayIsSafe(run[..|run| - 1]);
      ApplyInv(Exec(run[..|run| - 1]), run[|run| - 1]);
    }
  }

  predicate ServedAs(v: Server, s: nat, id: Id) {
    s < |v.sessions| && v.sessions[s].nodeID == id && !v.sessions[s].phase.Ended?
  }

  /** A connect request is refused as not registered exactly when every session still
      served under the wanted ID has been evicted by another one with that ID. */
  lemma RefusedIffAllEvicted(run: seq<Step>, wanted: Id)
    ensures wanted !in Exec(run).table.entries <==>
      forall s: nat :: ServedAs(Exec(run), s, wanted) ==> R.Evicted(TableRun(run), s)
  {
    RelayIsSafe(run);
    TableIsRegistry(run);
    var v := Exec(run);
    forall s: nat | ServedAs(v, s, wanted)
      ensures R.Running(v.table, s) && (R.Present(v.table, s) <==> !R.Evicted(TableRun(run), s))
    {
      assert v.table.sessions[s] == R.Session(wanted, true);
      R.PresentIffNotEvicted(TableRun(run), s);
    }
    R.EntriesAreLive(TableRun(run));
    if wanted in v.table.entries {
      var s := v.table.entries[wanted];
      assert R.Running(v.table, s) && v.table.sessions[s].id == wanted;
      assert R.Present(v.table, s);
    }
  }

  // ---- server and client together ----

  /** The rendezvous was written to the connection of session `me`. */
  predicate WrittenTo(log: seq<Write>, me: nat, info: Info) {
    exists i :: 0 <= i < |log| && (log[i].Push? || log[i].Answer?) && log[i].to == me && log[i].info == info
  }

  lemma WrittenIsRegistered(run: seq<Step>, me: nat, info: Info)
    requires WrittenTo(Exec(run).log, me, info)
    ensures exists t :: 0 <= t < |Exec(run).sessions| && info == InfoOf(Exec(run).sessions[t])
  {
    RelayIsSafe(run);
    var v := Exec(run);
    var i :| 0 <= i < |v.log| && (v.log[i].Push? || v.log[i].Answer?) && v.log[i].to == me && v.log[i].info == info;
    assert WriteOk(v, i);
  }

  /** For any server run and any run of a client that is fed only what the server wrote
      to its session: what RequestRendezvous(T) returns names T and carries the key
      and address of a session that registered as T. */
  lemma RequestReturnsRegisteredPeer(run: seq<Step>, me: nat, client: seq<RelayClient.Step>, w: nat)
    requires forall rv :: rv in RelayClient.Received(client) ==> WrittenTo(Exec(run).log, me, rv)
    ensures RelayClient.Exec(client).Ok?
    ensures var c := RelayClient.Exec(client).state;
            w < |c.waiters| && !c.waiters[w].phase.Waiting? && c.waiters[w].phase.result.Got? ==>
              && c.waiters[w].phase.result.rv.peerNodeId == c.waiters[w].target
              && exists t :: 0 <= t < |Exec(run).sessions|
                             && Exec(run).sessions[t].nodeID == c.waiters[w].target
                             && c.waiters[w].phase.result.rv == InfoOf(Exec(run).sessions[t])
  {
    RelayClient.NeverPanics(client);
    var c := RelayClient.Exec(client).state;
    if w < |c.waiters| && !c.waiters[w].phase.Waiting? && c.waiters[w].phase.result.Got? {
      assert RelayClient.ResultOk(c, RelayClient.Received(client), w);
      WrittenIsRegistered(run, me, c.waiters[w].phase.result.rv);
    }
  }
}
