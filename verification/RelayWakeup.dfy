/** Which waiters of a relay client are woken: by a value, by a close, or never. */
module RelayWakeup {
  import opened Basics
  import opened RelayClient

  /** The waiter's raw channel has a value to receive or is closed. */
  predicate Woken(s: State, w: nat) {
    Raw(w) in s.chans && (s.chans[Raw(w)].buf != [] || s.chans[Raw(w)].closed)
  }

  predicate Registered(s: State, w: nat)
    requires w < |s.waiters|
  {
    s.waiters[w].target in s.pending && s.pending[s.waiters[w].target] == Raw(w)
  }

  /** The step registers, or cleans up after, another waiter of the same target while
      w is still waiting and has nothing to receive. */
  predicate Displaces(s: State, step: Step, w: nat) {
    && IsWaiting(s, w) && !Woken(s, w)
    && match step
       case Register(t, _) => !s.closed && t == s.waiters[w].target
       case Cleanup(v) =>
         v != w && v < |s.waiters| && s.waiters[v].phase.Leaving? && s.waiters[v].target == s.waiters[w].target
       case _ => false
  }

  /** Some step of the run displaced w. */
  predicate Orphaned(run: seq<Step>, w: nat) {
    run != [] &&
    var init, last := run[..|run| - 1], run[|run| - 1];
    Orphaned(init, w) || (Exec(init).Ok? && Displaces(Exec(init).state, last, w))
  }

  /** A waiting waiter can still be woken. */
  predicate Wakeable(s: State, w: nat)
    requires w < |s.waiters|
  {
    Registered(s, w) || Woken(s, w)
  }

  /** One step: a waiter still waiting afterwards is wakeable if and only if it was
      wakeable and the step did not displace it. */
  lemma WakeStep(s: State, seen: set<Rendezvous>, step: Step, w: nat)
    requires Inv(s, seen) && Apply(s, step).Ok? && IsWaiting(s, w) && IsWaiting(Apply(s, step).state, w)
    ensures Wakeable(Apply(s, step).state, w) <==> Wakeable(s, w) && !Displaces(s, step, w)
  {
    assert RawOk(s, seen, w);
    match step
    case Register(t, hasOut) =>
      var s' := Apply(s, step).state;
      assert s'.chans[Raw(w)] == s.chans[Raw(w)];
    case WriteError(v) =>
    case Cancel(v) =>
    case Select(v) => SelectOther(s, seen, v, w);
    case Cleanup(v) =>
    case Dispatch(rv) => DispatchWake(s, seen, rv, w);
    case Tear(why) => TearWake(s, seen, why, w);
    case Consume(c) =>
  }

  lemma SelectOther(s: State, seen: set<Rendezvous>, v: nat, w: nat)
    requires Inv(s, seen) && Apply(s, Select(v)).Ok? && IsWaiting(s, w) && IsWaiting(Apply(s, Select(v)).state, w)
    ensures var s' := Apply(s, Select(v)).state;
            Wakeable(s', w) <==> Wakeable(s, w)
  {
    assert RawOk(s, seen, w);
    if IsWaiting(s, v) {
      assert RawOk(s, seen, v) && OutOk(s, v);
    }
  }

  lemma DispatchWake(s: State, seen: set<Rendezvous>, rv: Rendezvous, w: nat)
    requires Inv(s, seen) && Apply(s, Dispatch(rv)).Ok? && IsWaiting(s, w)
    ensures var s' := Apply(s, Dispatch(rv)).state;
            IsWaiting(s', w) && (Wakeable(s', w) <==> Wakeable(s, w))
  {
    assert RawOk(s, seen, w);
    if |rv.peerNodeId| == 32 && rv.peerNodeId in s.pending {
      assert PendingOk(s, rv.peerNodeId);
    }
  }

  lemma TearWake(s: State, seen: set<Rendezvous>, why: Teardown, w: nat)
    requires Inv(s, seen) && Apply(s, Tear(why)).Ok? && IsWaiting(s, w)
    ensures var s' := Apply(s, Tear(why)).state;
            IsWaiting(s', w) && (Wakeable(s', w) <==> Wakeable(s, w))
  {
    assert RawOk(s, seen, w);
    if !s.closed {
      var s' := Apply(s, Tear(why)).state;
      forall t | t in s.pending && s.pending[t] == Raw(w)
        ensures t == s.waiters[w].target
      {
        assert PendingOk(s, t);
      }
      assert s'.chans[Raw(w)].closed <==> s.chans[Raw(w)].closed || Registered(s, w);
    }
  }

  /** A fresh waiter starts out registered; nobody goes back to waiting. */
  lemma WaitingBefore(s: State, seen: set<Rendezvous>, step: Step, w: nat)
    requires Inv(s, seen) && Apply(s, step).Ok? && IsWaiting(Apply(s, step).state, w)
    ensures IsWaiting(s, w) || (w == |s.waiters| && Registered(Apply(s, step).state, w) && !Displaces(s, step, w))
  {
  }

  lemma {:induction false} NotBorn(run: seq<Step>, w: nat)
    requires Exec(run).Ok? && w >= |Exec(run).state.waiters|
    ensures !Orphaned(run, w)
  {
    if run != [] {
      var init, last := run[..|run| - 1], run[|run| - 1];
      NeverPanics(init);
      WaitersGrow(Exec(init).state, Received(init), last);
      NotBorn(init, w);
    }
  }

  lemma WaitersGrow(s: State, seen: set<Rendezvous>, step: Step)
    requires Inv(s, seen) && Apply(s, step).Ok?
    ensures |s.waiters| <= |Apply(s, step).state.waiters|
  {
    if step.Select? && IsWaiting(s, step.w) {
      assert RawOk(s, seen, step.w);
    }
  }

  /** In every reachable state, a waiting waiter can be woken if and only if no other
      waiter of its target registered or cleaned up while it had nothing to receive. */
  lemma {:induction false} WakeableIffNotOrphaned(run: seq<Step>, w: nat)
    requires Exec(run).Ok? && IsWaiting(Exec(run).state, w)
    ensures Wakeable(Exec(run).state, w) <==> !Orphaned(run, w)
  {
    var init, last := run[..|run| - 1], run[|run| - 1];
    NeverPanics(init);
    var s, seen := Exec(init).state, Received(init);
    WaitingBefore(s, seen, last, w);
    if IsWaiting(s, w) {
      WakeableIffNotOrphaned(init, w);
      WakeStep(s, seen, last, w);
    } else {
      NotBorn(init, w);
    }
  }

  /** After any teardown a waiter still in its select is woken, by a value or by the
      close, exactly when it was never displaced. */
  lemma TeardownWakes(run: seq<Step>, w: nat)
    ensures Exec(run).Ok?
    ensures Exec(run).state.closed && IsWaiting(Exec(run).state, w) ==>
              (Woken(Exec(run).state, w) <==> !Orphaned(run, w))
  {
    NeverPanics(run);
    if IsWaiting(Exec(run).state, w) {
      WakeableIffNotOrphaned(run, w);
    }
  }

  // ---- callers that never share a target ----

  /** No waiter registers for a target while another call for it is unfinished. */
  predicate NoOverlap(run: seq<Step>) {
    run != [] ==>
      var init, last := run[..|run| - 1], run[|run| - 1];
      && NoOverlap(init)
      && (last.Register? && Exec(init).Ok? ==> !Busy(Exec(init).state, last.target))
  }

  predicate Busy(s: State, t: Id) {
    exists v :: 0 <= v < |s.waiters| && !s.waiters[v].phase.Done? && s.waiters[v].target == t
  }

  ghost predicate DistinctTargets(s: State) {
    forall v, w :: 0 <= v < w < |s.waiters| && !s.waiters[v].phase.Done? && !s.waiters[w].phase.Done?
      ==> s.waiters[v].target != s.waiters[w].target
  }

  lemma PhasesOnlyAdvance(s: State, seen: set<Rendezvous>, step: Step, v: nat)
    requires Inv(s, seen) && Apply(s, step).Ok? && v < |s.waiters|
    ensures v < |Apply(s, step).state.waiters|
    ensures Apply(s, step).state.waiters[v].target == s.waiters[v].target
    ensures s.waiters[v].phase.Done? ==> Apply(s, step).state.waiters[v].phase.Done?
  {
    if step.Select? && IsWaiting(s, step.w) {
      assert RawOk(s, seen, step.w);
    }
  }

  lemma {:induction false} NoOverlapDistinct(run: seq<Step>)
    requires NoOverlap(run)
    ensures Exec(run).Ok? && DistinctTargets(Exec(run).state)
  {
    NeverPanics(run);
    if run != [] {
      var init, last := run[..|run| - 1], run[|run| - 1];
      NoOverlapDistinct(init);
      NeverPanics(init);
      var s, s' := Exec(init).state, Exec(run).state;
      forall v, w | 0 <= v < w < |s'.waiters| && !s'.waiters[v].phase.Done? && !s'.waiters[w].phase.Done?
        ensures s'.waiters[v].target != s'.waiters[w].target
      {
        WaitersGrow(s, Received(init), last);
        if w < |s.waiters| {
          PhasesOnlyAdvance(s, Received(init), last, v);
          PhasesOnlyAdvance(s, Received(init), last, w);
        } else {
          NewWaiterIsLast(s, Received(init), last);
          PhasesOnlyAdvance(s, Received(init), last, v);
        }
      }
    }
  }

  lemma NewWaiterIsLast(s: State, seen: set<Rendezvous>, step: Step)
    requires Inv(s, seen) && Apply(s, step).Ok? && |Apply(s, step).state.waiters| > |s.waiters|
    ensures step.Register? && |Apply(s, step).state.waiters| == |s.waiters| + 1
    ensures Apply(s, step).state.waiters[|s.waiters|].target == step.target
  {
  }

  lemma {:induction false} NoOverlapNoOrphan(run: seq<Step>, w: nat)
    requires NoOverlap(run)
    ensures !Orphaned(run, w)
  {
    if run != [] {
      var init, last := run[..|run| - 1], run[|run| - 1];
      NoOverlapNoOrphan(init, w);
      NoOverlapDistinct(init);
      var s := Exec(init).state;
      if IsWaiting(s, w) && last.Register? && last.target == s.waiters[w].target {
        assert !s.waiters[w].phase.Done? && Busy(s, last.target);
      }
    }
  }

  /** With at most one unfinished call per target, every waiter outstanding at teardown
      is woken. */
  lemma EveryWaiterIsWoken(run: seq<Step>, w: nat)
    requires NoOverlap(run)
    ensures Exec(run).Ok?
    ensures Exec(run).state.closed && IsWaiting(Exec(run).state, w) ==> Woken(Exec(run).state, w)
  {
    TeardownWakes(run, w);
    NoOverlapNoOrphan(run, w);
  }

  // ---- and without that: a displaced waiter hangs ----

  lemma {:induction false} OrphansStay(run: seq<Step>, more: seq<Step>, w: nat)
    requires Orphaned(run, w)
    ensures Orphaned(run + more, w)
  {
    if more == [] {
      assert run + more == run;
    } else {
      OrphansStay(run, more[..|more| - 1], w);
      assert (run + more)[..|run + more| - 1] == run + more[..|more| - 1];
    }
  }

  /** Two overlapping requests for one target: whatever happens afterwards, the first
      one is not woken, not even by closing the client. */
  lemma DisplacedWaiterHangs(t: Id, more: seq<Step>)
    ensures var run := [Register(t, false), Register(t, false)] + more;
            Exec(run).Ok? && (IsWaiting(Exec(run).state, 0) ==> !Woken(Exec(run).state, 0))
  {
    var first, second := [Register(t, false)], [Register(t, false), Register(t, false)];
    assert first[..0] == [] && second[..1] == first;
    assert Exec(first) == RegisterStep(CONNECTED, t, false);
    assert Displaces(Exec(first).state, Register(t, false), 0);
    assert Orphaned(second, 0);
    OrphansStay(second, more, 0);
    NeverPanics(second + more);
    if IsWaiting(Exec(second + more).state, 0) {
      WakeableIffNotOrphaned(second + more, 0);
    }
  }

  // ---- leaving ----

  /** A waiter that is cancelled leaves at once, and one whose request cannot be written;
      the channel handed out is closed and the deferred delete frees the target. */
  lemma CancelLeaves(run: seq<Step>, w: nat)
    requires Exec(run).Ok? && IsWaiting(Exec(run).state, w)
    ensures Exec(run + [Cancel(w)]).Ok? && Exec(run + [Cancel(w)] + [Cleanup(w)]).Ok? && Exec(run + [WriteError(w)]).Ok?
    ensures var s, s' := Exec(run).state, Exec(run + [Cancel(w)]).state;
            && w < |s'.waiters| && s'.waiters[w].phase == Leaving(Cancelled)
            && (s.waiters[w].hasOut ==> Out(w) in s'.chans && s'.chans[Out(w)].closed && s'.chans[Out(w)].buf == [])
            && var s'' := Exec(run + [Cancel(w)] + [Cleanup(w)]).state;
            && w < |s''.waiters| && s''.waiters[w].phase == Done(Cancelled) && s.waiters[w].target !in s''.pending
    ensures var s, s' := Exec(run).state, Exec(run + [WriteError(w)]).state;
            w < |s'.waiters| && (!s.waiters[w].hasOut ==> s'.waiters[w].phase == Leaving(WriteFailed))
  {
    var one, two := run + [Cancel(w)], run + [Cancel(w)] + [Cleanup(w)];
    NeverPanics(run);
    NeverPanics(one);
    NeverPanics(two);
    NeverPanics(run + [WriteError(w)]);
    assert one[..|run|] == run && two[..|one|] == one && (run + [WriteError(w)])[..|run|] == run;
    assert OutOk(Exec(run).state, w);
  }

  /** Why a waiter left, as far as it got no value. */
  ghost predicate LeftBecause(s: State, run: seq<Step>, w: nat)
    requires w < |s.waiters|
  {
    var p := s.waiters[w].phase;
    !p.Waiting? ==>
      && (p.result.Cancelled? ==> Cancel(w) in run)
      && (p.result.WriteFailed? ==> WriteError(w) in run && !s.waiters[w].hasOut)
      && (p.result.Disconnected? ==> s.closed)
  }

  lemma SelectLeft(s: State, seen: set<Rendezvous>, v: nat, before: seq<Step>, w: nat)
    requires Inv(s, seen) && Apply(s, Select(v)).Ok? && w < |s.waiters| && LeftBecause(s, before, w) && RawClosed(s, w)
    ensures w < |Apply(s, Select(v)).state.waiters| && LeftBecause(Apply(s, Select(v)).state, before, w)
  {
    if IsWaiting(s, v) {
      assert RawOk(s, seen, v) && OutOk(s, v);
    }
  }

  lemma LeftStep(s: State, seen: set<Rendezvous>, step: Step, before: seq<Step>, w: nat)
    requires Inv(s, seen) && Apply(s, step).Ok? && w < |s.waiters| && LeftBecause(s, before, w) && RawClosed(s, w)
    ensures w < |Apply(s, step).state.waiters| && LeftBecause(Apply(s, step).state, before + [step], w)
  {
    match step
    case Select(v) => SelectLeft(s, seen, v, before, w);
    case _ =>
  }

  ghost predicate RawClosed(s: State, w: nat) {
    Raw(w) in s.chans && s.chans[Raw(w)].closed ==> s.closed
  }

  /** Only a teardown closes a waiter's channel. */
  lemma RawStep(s: State, seen: set<Rendezvous>, step: Step, w: nat)
    requires Inv(s, seen) && Apply(s, step).Ok? && RawClosed(s, w)
    ensures RawClosed(Apply(s, step).state, w)
  {
    match step
    case Dispatch(rv) =>
      if |rv.peerNodeId| == 32 && rv.peerNodeId in s.pending {
        assert PendingOk(s, rv.peerNodeId);
      }
    case Select(v) =>
      if IsWaiting(s, v) {
        assert RawOk(s, seen, v) && OutOk(s, v);
      }
    case _ =>
  }

  /** In every run a waiter returns a context error only if it was cancelled, a write error
      only if its own request could not be written, and a lost connection only after a
      teardown. */
  lemma {:induction false} WhyLeft(run: seq<Step>, w: nat)
    ensures Exec(run).Ok? && RawClosed(Exec(run).state, w)
    ensures w < |Exec(run).state.waiters| ==> LeftBecause(Exec(run).state, run, w)
  {
    NeverPanics(run);
    if run != [] {
      var init, last := run[..|run| - 1], run[|run| - 1];
      NeverPanics(init);
      WhyLeft(init, w);
      RawStep(Exec(init).state, Received(init), last, w);
      if w < |Exec(init).state.waiters| {
        LeftStep(Exec(init).state, Received(init), last, init, w);
        assert run == init + [last];
      } else if w < |Exec(run).state.waiters| {
        NewWaiterIsLast(Exec(init).state, Received(init), last);
      }
    }
  }

  // ---- Close after a relay error ----

  /** The first teardown of the run; the later ones find the client closed. */
  function FirstTear(run: seq<Step>): Option<Teardown> {
    if run == [] then None
    else
      var before := FirstTear(run[..|run| - 1]);
      if before.None? && run[|run| - 1].Tear? then Some(run[|run| - 1].why) else before
  }

  /** The client is closed exactly after a teardown, and its connection is closed exactly
      when the first one was a call of Close. */
  lemma {:induction false} ClosedByFirstTear(run: seq<Step>)
    ensures Exec(run).Ok?
    ensures Exec(run).state.closed <==> FirstTear(run).Some?
    ensures Exec(run).state.connOpen <==> FirstTear(run) != Some(CloseCall)
  {
    NeverPanics(run);
    if run != [] {
      NeverPanics(run[..|run| - 1]);
      ClosedByFirstTear(run[..|run| - 1]);
      TearFlags(Exec(run[..|run| - 1]).state, Received(run[..|run| - 1]), run[|run| - 1]);
    }
  }

  lemma TearFlags(s: State, seen: set<Rendezvous>, step: Step)
    requires Inv(s, seen) && Apply(s, step).Ok?
    ensures var s' := Apply(s, step).state;
            if step.Tear? && !s.closed then s'.closed && s'.connOpen == (s.connOpen && !step.why.CloseCall?)
            else s'.closed == s.closed && s'.connOpen == s.connOpen
  {
  }

  lemma ClosedStays(s: State, seen: set<Rendezvous>, step: Step)
    requires Inv(s, seen) && Apply(s, step).Ok? && s.closed
    ensures Apply(s, step).state.closed && Apply(s, step).state.connOpen == s.connOpen
  {
  }

  /** A client torn down by a relay error or a read failure never closes its
      connection: the later Close finds it closed already and returns. */
  lemma {:induction false} ErrorLeavesConnOpen(run: seq<Step>, more: seq<Step>)
    requires Exec(run).Ok? && Exec(run).state.closed && Exec(run).state.connOpen
    ensures Exec(run + more).Ok? && Exec(run + more).state.closed && Exec(run + more).state.connOpen
  {
    if more == [] {
      assert run + more == run;
    } else {
      var init := more[..|more| - 1];
      ErrorLeavesConnOpen(run, init);
      NeverPanics(run + more);
      NeverPanics(run + init);
      assert (run + more)[..|run + more| - 1] == run + init;
      ClosedStays(Exec(run + init).state, Received(run + init), more[|more| - 1]);
    }
  }
}
