/** What becomes of a rendezvous: the waiter it names gets it, or the incoming channel
    does, in order, unless its buffer is full. */
module RelayDelivery {
  import opened Basics
  import opened RelayClient
  import opened RelayWakeup

  // ---- the waiter ----

  /** Waiter w is in its select and its channel is the pending one for the peer named. */
  predicate Claims(s: State, w: nat, rv: Rendezvous) {
    IsWaiting(s, w) && |rv.peerNodeId| == 32 && rv.peerNodeId in s.pending && s.pending[rv.peerNodeId] == Raw(w)
  }

  /** The first rendezvous dispatched while w waited as the one registered for its peer. */
  function FirstClaimed(run: seq<Step>, w: nat): Option<Rendezvous> {
    if run == [] then None
    else
      var init, last := run[..|run| - 1], run[|run| - 1];
      var first := FirstClaimed(init, w);
      if first.None? && last.Dispatch? && Exec(init).Ok? && Claims(Exec(init).state, w, last.rv) then Some(last.rv)
      else first
  }

  function AsSeq(o: Option<Rendezvous>): seq<Rendezvous> {
    if o.Some? then [o.value] else []
  }

  /** What waiter w has been given: buffered while it waits, returned once it has taken
      it. WaitForRendezvous puts it on the channel it handed out. */
  ghost predicate Handed(s: State, w: nat, first: Option<Rendezvous>)
    requires w < |s.waiters|
  {
    var p := s.waiters[w].phase;
    && Raw(w) in s.chans
    && (p.Waiting? ==> s.chans[Raw(w)].buf == AsSeq(first))
    && (!p.Waiting? && p.result.Got? ==> first == Some(p.result.rv))
    && (!p.Waiting? && p.result.Disconnected? ==> first.None?)
  }

  lemma DispatchHands(s: State, seen: set<Rendezvous>, rv: Rendezvous, w: nat, first: Option<Rendezvous>)
    requires Inv(s, seen) && w < |s.waiters| && Handed(s, w, first) && Apply(s, Dispatch(rv)).Ok?
    ensures var s' := Apply(s, Dispatch(rv)).state;
            && s'.waiters == s.waiters
            && Handed(s', w, if first.None? && Claims(s, w, rv) then Some(rv) else first)
  {
    assert RawOk(s, seen, w);
    if |rv.peerNodeId| == 32 && rv.peerNodeId in s.pending {
      assert PendingOk(s, rv.peerNodeId);
    }
  }

  lemma SelectHands(s: State, seen: set<Rendezvous>, v: nat, w: nat, first: Option<Rendezvous>)
    requires Inv(s, seen) && w < |s.waiters| && Handed(s, w, first) && Apply(s, Select(v)).Ok?
    ensures var s' := Apply(s, Select(v)).state; w < |s'.waiters| && Handed(s', w, first)
  {
    if IsWaiting(s, v) {
      assert RawOk(s, seen, v) && OutOk(s, v);
    }
  }

  lemma TearHands(s: State, seen: set<Rendezvous>, why: Teardown, w: nat, first: Option<Rendezvous>)
    requires Inv(s, seen) && w < |s.waiters| && Handed(s, w, first) && Apply(s, Tear(why)).Ok?
    ensures var s' := Apply(s, Tear(why)).state; w < |s'.waiters| && Handed(s', w, first)
  {
    assert RawOk(s, seen, w);
    var s' := Apply(s, Tear(why)).state;
    assert s'.chans[Raw(w)].buf == s.chans[Raw(w)].buf;
  }

  lemma HandStep(s: State, seen: set<Rendezvous>, step: Step, w: nat, first: Option<Rendezvous>)
    requires Inv(s, seen) && w < |s.waiters| && Handed(s, w, first) && Apply(s, step).Ok?
    ensures var s' := Apply(s, step).state;
            && w < |s'.waiters|
            && Handed(s', w, if first.None? && step.Dispatch? && Claims(s, w, step.rv) then Some(step.rv) else first)
  {
    assert RawOk(s, seen, w);
    match step
    case Dispatch(rv) => DispatchHands(s, seen, rv, w, first);
    case Select(v) => SelectHands(s, seen, v, w, first);
    case Tear(why) => TearHands(s, seen, why, w, first);
    case Register(t, hasOut) =>
      var s' := Apply(s, step).state;
      assert s'.chans[Raw(w)] == s.chans[Raw(w)] && s'.waiters[w] == s.waiters[w];
    case _ =>
  }

  lemma {:induction false} UnbornClaimsNothing(run: seq<Step>, w: nat)
    requires Exec(run).Ok? && w >= |Exec(run).state.waiters|
    ensures FirstClaimed(run, w).None?
  {
    if run != [] {
      NeverPanics(run[..|run| - 1]);
      WaitersGrow(Exec(run[..|run| - 1]).state, Received(run[..|run| - 1]), run[|run| - 1]);
      UnbornClaimsNothing(run[..|run| - 1], w);
    }
  }

  /** In every interleaving, a waiter has in its buffer, or has returned, exactly the
      first rendezvous dispatched while it waited as the one registered for its peer. */
  lemma {:induction false} GetsFirstClaimed(run: seq<Step>, w: nat)
    ensures Exec(run).Ok?
    ensures w < |Exec(run).state.waiters| ==> Handed(Exec(run).state, w, FirstClaimed(run, w))
  {
    NeverPanics(run);
    if run != [] {
      var init, last := run[..|run| - 1], run[|run| - 1];
      var s := Exec(init).state;
      NeverPanics(init);
      GetsFirstClaimed(init, w);
      if w < |s.waiters| {
        HandStep(s, Received(init), last, w, FirstClaimed(init, w));
      } else if w < |Exec(run).state.waiters| {
        UnbornClaimsNothing(init, w);
        NewWaiterIsLast(s, Received(init), last);
      }
    }
  }

  lemma ExecSnoc(run: seq<Step>, step: Step)
    requires Exec(run).Ok?
    ensures Exec(run + [step]) == Apply(Exec(run).state, step)
  {
    assert (run + [step])[..|run|] == run;
  }

  /** What a waiter's select returns. */
  lemma SelectReturns(run: seq<Step>, w: nat)
    requires Exec(run).Ok? && IsWaiting(Exec(run).state, w)
    ensures var s, first := Exec(run).state, FirstClaimed(run, w);
            && Raw(w) in s.chans && Exec(run + [Select(w)]).Ok?
            && var s' := Exec(run + [Select(w)]).state;
            && w < |s'.waiters|
            && (first.Some? ==> s'.waiters[w].phase == Leaving(Got(first.value)))
            && (first.None? && s.chans[Raw(w)].closed ==> s'.waiters[w].phase == Leaving(Disconnected))
            && (first.None? && !s.chans[Raw(w)].closed ==> s' == s)
            && (first.Some? && s.waiters[w].hasOut ==>
                  Out(w) in s'.chans && s'.chans[Out(w)].buf == [first.value] && !s'.chans[Out(w)].closed)
  {
    var s := Exec(run).state;
    NeverPanics(run);
    NeverPanics(run + [Select(w)]);
    GetsFirstClaimed(run, w);
    ExecSnoc(run, Select(w));
    assert RawOk(s, Received(run), w) && OutOk(s, w);
  }

  lemma {:induction false} FirstStays(run: seq<Step>, more: seq<Step>, w: nat)
    requires FirstClaimed(run, w).Some?
    ensures FirstClaimed(run + more, w) == FirstClaimed(run, w)
  {
    if more == [] {
      assert run + more == run;
    } else {
      FirstStays(run, more[..|more| - 1], w);
      assert (run + more)[..|run + more| - 1] == run + more[..|more| - 1];
    }
  }

  /** A rendezvous that names the target of a waiter with nothing buffered is what that
      waiter's next select returns, whatever happens in between, and what it puts on the
      channel WaitForRendezvous handed out. */
  lemma DispatchDelivers(run: seq<Step>, rv: Rendezvous, more: seq<Step>, w: nat)
    requires Exec(run).Ok? && Claims(Exec(run).state, w, rv)
    requires Raw(w) in Exec(run).state.chans && Exec(run).state.chans[Raw(w)].buf == []
    requires var mid := Exec(run + [Dispatch(rv)] + more); mid.Ok? && IsWaiting(mid.state, w)
    ensures var end := Exec(run + [Dispatch(rv)] + more + [Select(w)]);
            && end.Ok? && w < |end.state.waiters| && end.state.waiters[w].phase == Leaving(Got(rv))
            && (end.state.waiters[w].hasOut ==> Out(w) in end.state.chans && end.state.chans[Out(w)].buf == [rv])
  {
    GetsFirstClaimed(run, w);
    assert (run + [Dispatch(rv)])[..|run|] == run;
    FirstStays(run + [Dispatch(rv)], more, w);
    var mid := run + [Dispatch(rv)] + more;
    NeverPanics(mid);
    assert RawOk(Exec(mid).state, Received(mid), w) && OutOk(Exec(mid).state, w);
    ExecSnoc(mid, Select(w));
    SelectReturns(mid, w);
  }

  /** The channel WaitForRendezvous handed out: one value, or closed without any. */
  ghost predicate OutTells(s: State, w: nat)
    requires w < |s.waiters|
  {
    var p := s.waiters[w].phase;
    s.waiters[w].hasOut && !p.Waiting? ==>
      && Out(w) in s.chans
      && if p.result.Got? then !s.chans[Out(w)].closed && (s.chans[Out(w)].buf == [p.result.rv] || s.chans[Out(w)].buf == [])
         else s.chans[Out(w)].closed && s.chans[Out(w)].buf == []
  }

  lemma SelectTells(s: State, seen: set<Rendezvous>, v: nat, w: nat)
    requires Inv(s, seen) && Apply(s, Select(v)).Ok? && w < |s.waiters| && OutTells(s, w)
    ensures w < |Apply(s, Select(v)).state.waiters| && OutTells(Apply(s, Select(v)).state, w)
  {
    assert RawOk(s, seen, w) && OutOk(s, w);
    if IsWaiting(s, v) && v != w {
      assert RawOk(s, seen, v) && OutOk(s, v);
    }
  }

  lemma DispatchTells(s: State, seen: set<Rendezvous>, rv: Rendezvous, w: nat)
    requires Inv(s, seen) && Apply(s, Dispatch(rv)).Ok? && w < |s.waiters| && OutTells(s, w)
    ensures w < |Apply(s, Dispatch(rv)).state.waiters| && OutTells(Apply(s, Dispatch(rv)).state, w)
  {
    if |rv.peerNodeId| == 32 && rv.peerNodeId in s.pending {
      assert PendingOk(s, rv.peerNodeId);
    }
  }

  lemma OutStep(s: State, seen: set<Rendezvous>, step: Step, w: nat)
    requires Inv(s, seen) && Apply(s, step).Ok? && w < |s.waiters| && OutTells(s, w)
    ensures w < |Apply(s, step).state.waiters| && OutTells(Apply(s, step).state, w)
  {
    assert OutOk(s, w);
    match step
    case Dispatch(rv) => DispatchTells(s, seen, rv, w);
    case Select(v) => SelectTells(s, seen, v, w);
    case Tear(why) =>
      if s.waiters[w].hasOut {
        TearKeepsOut(s, seen, why, w);
      }
    case _ =>
  }

  lemma TearKeepsOut(s: State, seen: set<Rendezvous>, why: Teardown, w: nat)
    requires Inv(s, seen) && Apply(s, Tear(why)).Ok? && Out(w) in s.chans
    ensures Out(w) in Apply(s, Tear(why)).state.chans && Apply(s, Tear(why)).state.chans[Out(w)] == s.chans[Out(w)]
  {
    if !s.closed {
      forall t | t in s.pending
        ensures s.pending[t] != Out(w)
      {
        assert PendingOk(s, t);
      }
    }
  }

  /** In every run the channel handed out holds at most the value its waiter got, and is
      closed empty when the waiter left without one. */
  lemma {:induction false} OutAlwaysTells(run: seq<Step>, w: nat)
    ensures Exec(run).Ok?
    ensures w < |Exec(run).state.waiters| ==> OutTells(Exec(run).state, w)
  {
    NeverPanics(run);
    if run != [] {
      var init, last := run[..|run| - 1], run[|run| - 1];
      NeverPanics(init);
      OutAlwaysTells(init, w);
      if w < |Exec(init).state.waiters| {
        OutStep(Exec(init).state, Received(init), last, w);
      } else if w < |Exec(run).state.waiters| {
        NewWaiterIsLast(Exec(init).state, Received(init), last);
      }
    }
  }

  // ---- the incoming channel ----

  /** Nobody waits for this rendezvous and the client is open. */
  predicate Unclaimed(s: State, step: Step) {
    step.Dispatch? && |step.rv.peerNodeId| == 32 && step.rv.peerNodeId !in s.pending && !s.closed
  }

  /** What readers of Incoming have taken so far. */
  function Taken(run: seq<Step>): seq<Rendezvous> {
    if run == [] then []
    else
      var init, last := run[..|run| - 1], run[|run| - 1];
      var s := Exec(init);
      if last == Consume(Incoming) && s.Ok? && Incoming in s.state.chans && s.state.chans[Incoming].buf != []
      then Taken(init) + [s.state.chans[Incoming].buf[0]]
      else Taken(init)
  }

  /** The unclaimed rendezvous of the run, in order, without those that came when 16 of
      them had not been taken yet. */
  function Arrived(run: seq<Step>): seq<Rendezvous> {
    if run == [] then []
    else
      var init, last := run[..|run| - 1], run[|run| - 1];
      if Exec(init).Ok? && Unclaimed(Exec(init).state, last) && |Arrived(init)| - |Taken(init)| < 16
      then Arrived(init) + [last.rv]
      else Arrived(init)
  }

  ghost predicate IncomingIs(s: State, waiting: seq<Rendezvous>) {
    Incoming in s.chans && s.chans[Incoming].buf == waiting && s.chans[Incoming].capacity == 16
  }

  lemma IncomingStep(s: State, seen: set<Rendezvous>, step: Step, waiting: seq<Rendezvous>)
    requires Inv(s, seen) && Apply(s, step).Ok? && IncomingIs(s, waiting)
    ensures IncomingIs(Apply(s, step).state,
                       if Unclaimed(s, step) && |waiting| < 16 then waiting + [step.rv]
                       else if step == Consume(Incoming) && waiting != [] then waiting[1..]
                       else waiting)
  {
    match step
    case Dispatch(rv) =>
      if |rv.peerNodeId| == 32 && rv.peerNodeId in s.pending {
        assert PendingOk(s, rv.peerNodeId);
      }
    case Select(w) =>
      if IsWaiting(s, w) {
        assert RawOk(s, seen, w) && OutOk(s, w);
      }
    case _ =>
  }

  /** In every run, what readers of Incoming took and what is still buffered are together
      exactly the unclaimed rendezvous, in order, but for those that met a full buffer. */
  lemma {:induction false} IncomingInOrder(run: seq<Step>)
    ensures Exec(run).Ok? && Incoming in Exec(run).state.chans
    ensures Taken(run) + Exec(run).state.chans[Incoming].buf == Arrived(run)
    ensures IncomingIs(Exec(run).state, Exec(run).state.chans[Incoming].buf)
  {
    NeverPanics(run);
    if run != [] {
      var init, last := run[..|run| - 1], run[|run| - 1];
      NeverPanics(init);
      IncomingInOrder(init);
      var buf := Exec(init).state.chans[Incoming].buf;
      IncomingStep(Exec(init).state, Received(init), last, buf);
      if last == Consume(Incoming) && buf != [] {
        assert buf == [buf[0]] + buf[1..];
      }
    }
  }

  /** A rendezvous nobody waits for becomes the last value of Incoming if fewer than 16
      are buffered, and is dropped, with nothing else changed, otherwise. */
  lemma UnclaimedArrives(run: seq<Step>, rv: Rendezvous)
    requires Exec(run).Ok? && Unclaimed(Exec(run).state, Dispatch(rv))
    ensures Incoming in Exec(run).state.chans && Exec(run + [Dispatch(rv)]).Ok?
    ensures var s, s' := Exec(run).state, Exec(run + [Dispatch(rv)]).state;
            var buf := s.chans[Incoming].buf;
            if |buf| < 16 then s' == s.(chans := s.chans[Incoming := s.chans[Incoming].(buf := buf + [rv])]) else s' == s
  {
    IncomingInOrder(run);
    NeverPanics(run);
    NeverPanics(run + [Dispatch(rv)]);
    ExecSnoc(run, Dispatch(rv));
  }
}
