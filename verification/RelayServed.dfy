/** What a connect request leads to: a push to the wanted node and an answer to the
    requester, whatever other sessions do meanwhile, or one refusal with its reason. */
module RelayServed {
  import opened Basics
  import opened RelayServer
  import RelayClient
  import RelayOrder
  import R = Registry

  // ---- sessions are the registrations of the run ----

  predicate IsRegistration(s: Step) {
    s.Open? && |s.nodeId| == 32 && |s.publicKey| == 32
  }

  /** The valid registrations of the run, in order. */
  function Registrations(run: seq<Step>): seq<Step> {
    if run == [] then []
    else
      var last := run[|run| - 1];
      Registrations(run[..|run| - 1]) + if IsRegistration(last) then [last] else []
  }

  /** The session carries what its registration said. */
  predicate Carries(s: Session, r: Step) {
    r.Open? && s.nodeID == r.nodeId && s.publicKey == r.publicKey && s.externalAddr == r.externalAddr
  }

  /** Sessions are exactly the valid registrations, with the ID, key and address given. */
  lemma {:induction false} SessionsAreRegistrations(run: seq<Step>)
    ensures var ss, rs := Exec(run).sessions, Registrations(run);
            |ss| == |rs| && forall i :: 0 <= i < |ss| ==> IsRegistration(rs[i]) && Carries(ss[i], rs[i])
  {
    if run != [] {
      SessionsAreRegistrations(run[..|run| - 1]);
    }
  }

  lemma {:induction false} RegistrationInRun(run: seq<Step>, i: nat) returns (j: nat)
    requires i < |Registrations(run)|
    ensures j < |run| && run[j] == Registrations(run)[i]
  {
    var init := run[..|run| - 1];
    if i < |Registrations(init)| {
      j := RegistrationInRun(init, i);
    } else {
      j := |run| - 1;
    }
  }

  /** What RequestRendezvous(T) returns is the ID, key and address of some registration
      with the ID T, for every server run and every run of a client fed by it. */
  lemma RequestReturnsRegistration(run: seq<Step>, me: nat, client: seq<RelayClient.Step>, w: nat) returns (j: nat)
    requires forall rv :: rv in RelayClient.Received(client) ==> WrittenTo(Exec(run).log, me, rv)
    requires RelayClient.Exec(client).Ok? && w < |RelayClient.Exec(client).state.waiters|
    requires var p := RelayClient.Exec(client).state.waiters[w].phase; !p.Waiting? && p.result.Got?
    ensures var x := RelayClient.Exec(client).state.waiters[w];
            && j < |run| && IsRegistration(run[j]) && run[j].nodeId == x.target
            && x.phase.result.rv == RelayClient.Rendezvous(run[j].nodeId, run[j].publicKey, run[j].externalAddr)
  {
    RequestReturnsRegisteredPeer(run, me, client, w);
    var x := RelayClient.Exec(client).state.waiters[w];
    var t :| 0 <= t < |Exec(run).sessions| && Exec(run).sessions[t].nodeID == x.target
             && x.phase.result.rv == InfoOf(Exec(run).sessions[t]);
    SessionsAreRegistrations(run);
    j := RegistrationInRun(run, t);
  }

  // ---- one request among other sessions' steps ----

  predicate Acts(step: Step, s: nat) {
    !step.Open? && step.s == s
  }

  predicate Others(steps: seq<Step>, s: nat) {
    forall i :: 0 <= i < |steps| ==> !Acts(steps[i], s)
  }

  lemma OtherStep(v: Server, step: Step, s: nat)
    requires s < |v.sessions| && !Acts(step, s)
    ensures s < |Apply(v, step).sessions| && Apply(v, step).sessions[s] == v.sessions[s]
    ensures v.log <= Apply(v, step).log
  {
    RelayOrder.OneWrite(v, step);
  }

  lemma {:induction false} OtherSteps(run: seq<Step>, more: seq<Step>, s: nat)
    requires s < |Exec(run).sessions| && Others(more, s)
    ensures s < |Exec(run + more).sessions| && Exec(run + more).sessions[s] == Exec(run).sessions[s]
    ensures Exec(run).log <= Exec(run + more).log
    decreases |more|
  {
    if more == [] {
      assert run + more == run;
    } else {
      var init := more[..|more| - 1];
      OtherSteps(run, init, s);
      assert (run + more)[..|run + more| - 1] == run + init;
      OtherStep(Exec(run + init), more[|more| - 1], s);
    }
  }

  lemma InfoStep(v: Server, step: Step, t: nat)
    requires t < |v.sessions|
    ensures t < |Apply(v, step).sessions| && InfoOf(Apply(v, step).sessions[t]) == InfoOf(v.sessions[t])
  {
  }

  lemma {:induction false} InfoStays(run: seq<Step>, more: seq<Step>, t: nat)
    requires t < |Exec(run).sessions|
    ensures t < |Exec(run + more).sessions| && InfoOf(Exec(run + more).sessions[t]) == InfoOf(Exec(run).sessions[t])
    decreases |more|
  {
    if more == [] {
      assert run + more == run;
    } else {
      var init := more[..|more| - 1];
      InfoStays(run, init, t);
      assert (run + more)[..|run + more| - 1] == run + init;
      InfoStep(Exec(run + init), more[|more| - 1], t);
    }
  }

  lemma ExecSnoc(run: seq<Step>, step: Step)
    ensures Exec(run + [step]) == Apply(Exec(run), step)
  {
    assert (run + [step])[..|run|] == run;
  }

  /** Session t is registered under the ID and nobody with that ID came or went since. */
  ghost predicate Reachable(run: seq<Step>, t: nat, id: Bytes) {
    |id| == 32 && ServedAs(Exec(run), t, id) && !R.Evicted(TableRun(run), t)
  }

  lemma ReachableIsFound(run: seq<Step>, t: nat, id: Bytes)
    requires Reachable(run, t, id)
    ensures id in Exec(run).table.entries && Exec(run).table.entries[id] == t
  {
    RelayIsSafe(run);
    TableIsRegistry(run);
    assert R.Running(Exec(run).table, t);
    R.PresentIffNotEvicted(TableRun(run), t);
  }

  predicate Serves(v: Server, s: nat) {
    s < |v.sessions| && v.sessions[s].phase.Serving?
  }

  /** The rendezvous that describes session t. */
  predicate Describes(info: Info, x: Session) {
    info.peerNodeId == x.nodeID && info.publicKey == x.publicKey && info.externalAddr == x.externalAddr
  }

  /** A request for a reachable node, with whatever other sessions do in between: its push
      is written to that node and describes the requester, and then the answer is written
      to the requester and describes the node. */
  lemma RequestIsServed(run: seq<Step>, s: nat, t: nat, target: Bytes, told: bool, a: seq<Step>, b: seq<Step>)
    requires Serves(Exec(run), s) && Reachable(run, t, target) && Others(a, s) && Others(b, s)
    ensures var all := run + [Connect(s, target, told)] + a + [SendTarget(s, true, told)] + b + [SendRequester(s, true)];
            var log := Exec(all).log;
            && t < |Exec(all).sessions| && Serves(Exec(all), s)
            && |log| >= |Exec(run).log| + 2
            && (exists i :: |Exec(run).log| <= i < |log| - 1 && log[i].Push? && log[i].to == t
                            && log[i].requester == s && Describes(log[i].info, Exec(all).sessions[s]))
            && var last := log[|log| - 1];
               last.Answer? && last.to == s && last.wanted == target && last.target == t
               && Describes(last.info, Exec(all).sessions[t])
  {
    ReachableIsFound(run, t, target);
    var r1 := run + [Connect(s, target, told)];
    ExecSnoc(run, Connect(s, target, told));
    OtherSteps(r1, a, s);
    var r2 := r1 + a + [SendTarget(s, true, told)];
    ExecSnoc(r1 + a, SendTarget(s, true, told));
    InfoStays(r1, a, s);
    OtherSteps(r2, b, s);
    InfoStays(r2, b, s);
    InfoStays(r1, a, t);
    InfoStays(r2, b, t);
    var r3 := r2 + b + [SendRequester(s, true)];
    ExecSnoc(r2 + b, SendRequester(s, true));
    var i := |Exec(r1 + a).log|;
    assert Exec(r2).log[i].Push?;
    assert Exec(r2 + b).log[i] == Exec(r2).log[i];
    assert Exec(r3).log[i] == Exec(r2).log[i];
  }

  lemma FoundIffReachable(run: seq<Step>, target: Id)
    ensures target in Exec(run).table.entries <==> exists t: nat :: Reachable(run, t, target)
  {
    RefusedIffAllEvicted(run, target);
    if t: nat :| Reachable(run, t, target) {
      ReachableIsFound(run, t, target);
    }
    if target in Exec(run).table.entries {
      var t: nat :| ServedAs(Exec(run), t, target) && !R.Evicted(TableRun(run), t);
      assert Reachable(run, t, target);
    }
  }

  /** What handleConnect writes at once, if anything. */
  lemma ConnectWrites(v: Server, s: nat, target: Bytes)
    requires Serves(v, s)
    ensures var v' := Apply(v, Connect(s, target, true));
            if |target| != 32 then v'.log == v.log + [Refuse(s, "invalid_request")]
            else if target in v.table.entries then v'.log == v.log
            else v'.log == v.log + [Refuse(s, "peer_not_registered")]
  {
  }

  /** A malformed ID and an ID without a session that is not evicted are refused, each
      with its reason; any other request goes on without a word to the requester. */
  lemma ConnectRefusals(run: seq<Step>, s: nat, target: Bytes)
    requires Serves(Exec(run), s)
    ensures var v, v' := Exec(run), Exec(run + [Connect(s, target, true)]);
            && (|target| != 32 ==> v'.log == v.log + [Refuse(s, "invalid_request")])
            && (|target| == 32 && (forall t: nat :: !Reachable(run, t, target))
                ==> v'.log == v.log + [Refuse(s, "peer_not_registered")])
            && ((exists t: nat :: Reachable(run, t, target)) ==> v'.log == v.log)
  {
    ExecSnoc(run, Connect(s, target, true));
    ConnectWrites(Exec(run), s, target);
    if |target| == 32 {
      FoundIffReachable(run, target);
    }
  }

  /** A push that cannot be written is answered by one refusal, and the requester is
      served on. */
  lemma PushFailed(run: seq<Step>, s: nat)
    requires s < |Exec(run).sessions| && Exec(run).sessions[s].phase.ToTarget?
    ensures var v' := Exec(run + [SendTarget(s, false, true)]);
            Serves(v', s) && v'.log == Exec(run).log + [Refuse(s, "peer_unreachable")]
  {
    ExecSnoc(run, SendTarget(s, false, true));
  }
}
