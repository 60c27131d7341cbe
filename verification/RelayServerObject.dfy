/** The relay server's code, one call of Serve at a time. Every method is a sequence of
    the steps that module RelayServer interleaves, so what holds in every run holds of it. */
module RelayServerObject {
  import opened Basics
  import opened RelayServer
  import R = Registry

  function TableSession(): Session -> R.Session {
    (s: Session) => R.Session(s.nodeID, !s.phase.Ended?)
  }

  function Follow(v: Server, steps: seq<Step>): Server {
    if steps == [] then v else Apply(Follow(v, steps[..|steps| - 1]), steps[|steps| - 1])
  }

  lemma {:induction false} FollowAppend(v: Server, a: seq<Step>, b: seq<Step>)
    ensures Follow(v, a + b) == Follow(Follow(v, a), b)
    decreases |b|
  {
    if b == [] {
      assert a + b == a;
    } else {
      FollowAppend(v, a, b[..|b| - 1]);
      assert (a + b)[..|a + b| - 1] == a + b[..|b| - 1];
    }
  }

  /** From a reachable state the steps lead to a reachable state. */
  lemma {:induction false} FollowIsARun(run: seq<Step>, steps: seq<Step>)
    ensures Follow(Exec(run), steps) == Exec(run + steps)
    decreases |steps|
  {
    if steps == [] {
      assert run + steps == run;
    } else {
      FollowIsARun(run, steps[..|steps| - 1]);
      assert (run + steps)[..|run + steps| - 1] == run + steps[..|steps| - 1];
    }
  }

  ghost predicate InRange(registry: map<Id, nat>, sessions: seq<Session>) {
    forall id :: id in registry ==> registry[id] < |sessions|
  }

  /** One connect request and the outcomes of the sends it leads to. */
  datatype Request = Request(target: Bytes, told: bool, toTarget: bool, toRequester: bool)

  /** handleConnect; a step whose turn does not come leaves the server as it is. */
  function ConnectSteps(s: nat, r: Request): seq<Step> {
    [Connect(s, r.target, r.told), SendTarget(s, r.toTarget, r.told), SendRequester(s, r.toRequester)]
  }

  function AllConnectSteps(s: nat, rs: seq<Request>): seq<Step> {
    if rs == [] then [] else AllConnectSteps(s, rs[..|rs| - 1]) + ConnectSteps(s, rs[|rs| - 1])
  }

  function ServeSteps(s: nat, id: Bytes, key: Bytes, addr: string, confirmed: bool, rs: seq<Request>): seq<Step> {
    [Open(id, key, addr), SendConfirm(s, confirmed)]
    + if confirmed then AllConnectSteps(s, rs) + [Leave(s)] else []
  }

  lemma FollowOne(v: Server, a: Step)
    ensures Follow(v, [a]) == Apply(v, a)
  {
    assert [a][..0] == [];
  }

  lemma FollowTwo(v: Server, a: Step, b: Step)
    ensures Follow(v, [a, b]) == Apply(Apply(v, a), b)
  {
    FollowOne(v, a);
    assert [a, b][..1] == [a];
  }

  lemma FollowConnect(v: Server, s: nat, r: Request)
    ensures Follow(v, ConnectSteps(s, r)) ==
              Apply(Apply(Apply(v, Connect(s, r.target, r.told)), SendTarget(s, r.toTarget, r.told)), SendRequester(s, r.toRequester))
  {
    var steps := ConnectSteps(s, r);
    assert steps[..2] == [steps[0], steps[1]];
    FollowTwo(v, steps[0], steps[1]);
  }

  lemma ServeFollows(v: Server, s: nat, id: Bytes, key: Bytes, addr: string, confirmed: bool, rs: seq<Request>)
    ensures var v1 := Apply(Apply(v, Open(id, key, addr)), SendConfirm(s, confirmed));
            Follow(v, ServeSteps(s, id, key, addr, confirmed, rs)) ==
              if confirmed then Apply(Follow(v1, AllConnectSteps(s, rs)), Leave(s)) else v1
  {
    var first := [Open(id, key, addr), SendConfirm(s, confirmed)];
    FollowTwo(v, first[0], first[1]);
    if confirmed {
      FollowAppend(v, first, AllConnectSteps(s, rs) + [Leave(s)]);
      FollowAppend(Follow(v, first), AllConnectSteps(s, rs), [Leave(s)]);
      FollowOne(Follow(Follow(v, first), AllConnectSteps(s, rs)), Leave(s));
    } else {
      assert first + [] == first;
    }
  }

  /** The writes of one handleConnect. */
  function Written(v: Server, s: nat, r: Request): seq<Write>
    requires s < |v.sessions| && InRange(v.table.entries, v.sessions)
  {
    if |r.target| != 32 then if r.told then [Refuse(s, "invalid_request")] else []
    else if r.target !in v.table.entries then if r.told then [Refuse(s, "peer_not_registered")] else []
    else
      var t := v.table.entries[r.target];
      if !r.toTarget then if r.told then [Refuse(s, "peer_unreachable")] else []
      else [Push(t, s, InfoOf(v.sessions[s]))]
           + if r.toRequester then [Answer(s, r.target, t, InfoOf(v.sessions[t]))] else []
  }

  lemma MoveBack(v: Server, s: nat, p: Phase)
    requires s < |v.sessions|
    ensures var v' := Move(v, s, p);
            && Move(v', s, v.sessions[s].phase) == v
            && forall t :: 0 <= t < |v.sessions| ==> InfoOf(v'.sessions[t]) == InfoOf(v.sessions[t])
  {
    assert v.sessions[s := v.sessions[s].(phase := p)][s := v.sessions[s]] == v.sessions;
  }

  /** A target found: push to it, then answer the requester. */
  lemma FoundEffect(v: Server, s: nat, t: nat, r: Request)
    requires s < |v.sessions| && v.sessions[s].phase.Serving? && t < |v.sessions| && |r.target| == 32
    ensures var v1 := Move(v, s, ToTarget(t, r.target));
            var v2 := Apply(v1, SendTarget(s, r.toTarget, r.told));
            Apply(v2, SendRequester(s, r.toRequester)) ==
              v.(log := v.log + if !r.toTarget then if r.told then [Refuse(s, "peer_unreachable")] else []
                                else [Push(t, s, InfoOf(v.sessions[s]))]
                                     + if r.toRequester then [Answer(s, r.target, t, InfoOf(v.sessions[t]))] else [])
  {
    var v1 := Move(v, s, ToTarget(t, r.target));
    MoveBack(v, s, ToTarget(t, r.target));
    MoveBack(v, s, ToRequester(t, r.target));
    if r.toTarget {
      var push := [Push(t, s, InfoOf(v.sessions[s]))];
      var v2 := Apply(v1, SendTarget(s, true, r.told));
      assert v2 == Move(v, s, ToRequester(t, r.target)).(log := v.log + push);
      Assoc(v.log, push, [Answer(s, r.target, t, InfoOf(v.sessions[t]))]);
    }
  }

  /** What handleConnect comes to when nothing happens in between. */
  lemma ConnectEffect(v: Server, s: nat, r: Request)
    requires s < |v.sessions| && v.sessions[s].phase.Serving? && InRange(v.table.entries, v.sessions)
    ensures Follow(v, ConnectSteps(s, r)) == v.(log := v.log + Written(v, s, r))
  {
    FollowConnect(v, s, r);
    if |r.target| == 32 && r.target in v.table.entries {
      FoundEffect(v, s, v.table.entries[r.target], r);
    }
  }

  class Relay {
    var registry: map<Id, nat>
    var sessions: seq<Session>
    var log: seq<Write>

    function Abs(): Server
      reads this
    {
      Server(sessions, R.Table(Map(sessions, TableSession()), registry), log)
    }

    ghost predicate Valid()
      reads this
    {
      InRange(registry, sessions)
    }

    constructor ()
      ensures Abs() == FRESH && Valid()
    {
      registry, sessions, log := map[], [], [];
    }

    method Send(w: Write, ok: bool)
      modifies this`log
      ensures log == if ok then old(log) + [w] else old(log)
    {
      if ok {
        log := log + [w];
      }
    }

    method HandleConnect(s: nat, r: Request)
      requires Valid() && s < |sessions| && sessions[s].phase.Serving?
      modifies this
      ensures Valid() && Abs() == Follow(old(Abs()), ConnectSteps(s, r))
      ensures sessions == old(sessions)
    {
      ConnectEffect(Abs(), s, r);
      if |r.target| != 32 {
        Send(Refuse(s, "invalid_request"), r.told);
        return;
      }
      if r.target !in registry {
        Send(Refuse(s, "peer_not_registered"), r.told);
        return;
      }
      var t := registry[r.target];
      var toRequester := Answer(s, r.target, t, InfoOf(sessions[t]));
      var toTarget := Push(t, s, InfoOf(sessions[s]));
      if !r.toTarget {
        Send(Refuse(s, "peer_unreachable"), r.told);
        return;
      }
      Send(toTarget, true);
      Send(toRequester, r.toRequester);
    }

    method Deregister(s: nat)
      requires Valid() && s < |sessions| && !sessions[s].phase.Ended?
      modifies this
      ensures Valid() && Abs() == RelayServer.Deregister(old(Abs()), s)
    {
      registry := registry - {sessions[s].nodeID};
      sessions := sessions[s := sessions[s].(phase := Ended)];
      assert Map(sessions, TableSession()) == Map(old(sessions), TableSession())[s := R.Session(sessions[s].nodeID, false)];
    }

    /** The registry entry of a new connection, replacing whatever had the ID. */
    method Enter(id: Id, key: Bytes, addr: string)
      requires Valid() && |key| == 32
      modifies this
      ensures Valid() && Abs() == Apply(old(Abs()), Open(id, key, addr))
    {
      var e := Session(id, key, addr, Confirming);
      MapAppend(sessions, [e], TableSession());
      registry := registry[id := |sessions|];
      sessions := sessions + [e];
    }

    /** The confirmation went out and the message loop starts. */
    method StartServing(s: nat)
      requires Valid() && s < |sessions| && sessions[s].phase.Confirming?
      modifies this
      ensures Valid() && Abs() == Apply(old(Abs()), SendConfirm(s, true))
    {
      sessions := sessions[s := sessions[s].(phase := Serving)];
      assert Map(sessions, TableSession()) == Map(old(sessions), TableSession());
      Send(Confirm(s), true);
    }

    /** The message loop. */
    method AnswerAll(s: nat, rs: seq<Request>)
      requires Valid() && s < |sessions| && sessions[s].phase.Serving?
      modifies this
      ensures Valid() && Abs() == Follow(old(Abs()), AllConnectSteps(s, rs)) && sessions == old(sessions)
    {
      ghost var v := Abs();
      for i := 0 to |rs|
        invariant Valid() && Abs() == Follow(v, AllConnectSteps(s, rs[..i])) && sessions == v.sessions
      {
        HandleConnect(s, rs[i]);
        assert rs[..i + 1][..i] == rs[..i];
        FollowAppend(v, AllConnectSteps(s, rs[..i]), ConnectSteps(s, rs[i]));
      }
      assert rs[..|rs|] == rs;
    }

    /** Serve: register, confirm, answer the requests, deregister. */
    method Serve(id: Bytes, key: Bytes, addr: string, confirmed: bool, rs: seq<Request>)
      requires Valid()
      modifies this
      ensures Valid()
      ensures |id| != 32 || |key| != 32 ==> Abs() == old(Abs())
      ensures |id| == 32 && |key| == 32 ==> Abs() == Follow(old(Abs()), ServeSteps(|old(sessions)|, id, key, addr, confirmed, rs))
    {
      if |id| != 32 || |key| != 32 {
        return;
      }
      ServeFollows(Abs(), |sessions|, id, key, addr, confirmed, rs);
      var s := |sessions|;
      Enter(id, key, addr);
      if !confirmed {
        Deregister(s);
        return;
      }
      StartServing(s);
      AnswerAll(s, rs);
      Deregister(s);
    }
  }
}
