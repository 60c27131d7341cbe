/** The relay client: waiters, their channels and the three ways it is torn down.
    Every lock-held region is one atomic step; a step that would make Go panic or
    block a goroutine for ever is a separate outcome. */
module RelayClient {
  import opened Basics

  datatype Rendezvous = Rendezvous(peerNodeId: Bytes, publicKey: Bytes, externalAddr: string)

  /** The channels a client owns: the shared incoming channel, each waiter's raw
      channel and the channel WaitForRendezvous hands to its caller. */
  datatype ChanId = Incoming | Raw(waiter: nat) | Out(waiter: nat)

  datatype Chan = Chan(buf: seq<Rendezvous>, capacity: nat, closed: bool)

  datatype Result = Got(rv: Rendezvous) | Disconnected | Cancelled | WriteFailed

  /** Waiting in select; Leaving, with the deferred delete still to run; Done. */
  datatype Phase = Waiting | Leaving(result: Result) | Done(result: Result)

  /** One call of RequestRendezvous, or of WaitForRendezvous when `hasOut`. */
  datatype Waiter = Waiter(target: Id, hasOut: bool, phase: Phase)

  datatype State = State(
    chans: map<ChanId, Chan>,
    pending: map<Id, ChanId>,
    closed: bool,
    connOpen: bool,
    waiters: seq<Waiter>)

  datatype Outcome = Ok(state: State) | Panic | Blocked

  datatype Teardown = ReadFailure | RelayError | CloseCall

  datatype Step =
    | Register(target: Id, hasOut: bool)
    | WriteError(w: nat)
    | Cancel(w: nat)
    | Select(w: nat)
    | Cleanup(w: nat)
    | Dispatch(rv: Rendezvous)
    | Tear(why: Teardown)
    | Consume(from: ChanId)

  const INCOMING_CAPACITY := 16

  const CONNECTED := State(map[Incoming := Chan([], INCOMING_CAPACITY, false)], map[], false, true, [])

  // ---- channel operations ----

  /** close(c) panics on a closed channel. */
  function CloseChan(s: State, c: ChanId): Outcome
    requires c in s.chans
  {
    if s.chans[c].closed then Panic
    else Ok(s.(chans := s.chans[c := s.chans[c].(closed := true)]))
  }

  /** select { case c <- v: default: } panics on a closed channel and drops v when full. */
  function TrySend(s: State, c: ChanId, v: Rendezvous): Outcome
    requires c in s.chans
  {
    if s.chans[c].closed then Panic
    else if |s.chans[c].buf| >= s.chans[c].capacity then Ok(s)
    else Ok(s.(chans := s.chans[c := s.chans[c].(buf := s.chans[c].buf + [v])]))
  }

  /** A plain send panics on a closed channel and blocks on a full one. */
  function Send(s: State, c: ChanId, v: Rendezvous): Outcome
    requires c in s.chans
  {
    if s.chans[c].closed then Panic
    else if |s.chans[c].buf| >= s.chans[c].capacity then Blocked
    else Ok(s.(chans := s.chans[c := s.chans[c].(buf := s.chans[c].buf + [v])]))
  }

  // ---- the steps ----

  predicate IsWaiting(s: State, w: nat) {
    w < |s.waiters| && s.waiters[w].phase.Waiting?
  }

  function Leave(s: State, w: nat, r: Result): State
    requires w < |s.waiters|
  {
    s.(waiters := s.waiters[w := s.waiters[w].(phase := Leaving(r))])
  }

  /** The first lock region of RequestRendezvous and WaitForRendezvous. */
  function RegisterStep(s: State, target: Id, hasOut: bool): Outcome {
    var w := |s.waiters|;
    var raw := s.chans[Raw(w) := Chan([], 1, false)];
    var chans := if hasOut then raw[Out(w) := Chan([], 1, false)] else raw;
    if s.closed then
      var s' := s.(chans := chans, waiters := s.waiters + [Waiter(target, hasOut, Done(Disconnected))]);
      if hasOut then CloseChan(s', Out(w)) else Ok(s')
    else
      Ok(s.(chans := chans,
            pending := s.pending[target := Raw(w)],
            waiters := s.waiters + [Waiter(target, hasOut, Waiting)]))
  }

  /** A waiter that leaves without a value closes the channel it handed out. */
  function LeaveEmpty(s: State, w: nat, r: Result): Outcome
    requires w < |s.waiters|
  {
    if s.waiters[w].hasOut && Out(w) in s.chans then CloseChan(Leave(s, w, r), Out(w))
    else Ok(Leave(s, w, r))
  }

  /** The waiter's select picks its raw channel: a buffered value first, then the close. */
  function SelectStep(s: State, w: nat): Outcome
    requires w < |s.waiters|
  {
    if Raw(w) !in s.chans then Ok(s)
    else
      var c := s.chans[Raw(w)];
      if c.buf != [] then
        var s' := Leave(s.(chans := s.chans[Raw(w) := c.(buf := c.buf[1..])]), w, Got(c.buf[0]));
        if s.waiters[w].hasOut && Out(w) in s'.chans then Send(s', Out(w), c.buf[0]) else Ok(s')
      else if c.closed then LeaveEmpty(s, w, Disconnected)
      else Ok(s)
  }

  function DispatchStep(s: State, rv: Rendezvous): Outcome {
    if |rv.peerNodeId| != 32 then Ok(s)
    else if rv.peerNodeId in s.pending then
      var c := s.pending[rv.peerNodeId];
      if c in s.chans then TrySend(s, c, rv) else Ok(s)
    else if s.closed || Incoming !in s.chans then Ok(s)
    else TrySend(s, Incoming, rv)
  }

  /** Closing every pending channel and then the incoming one is safe when all of them
      are open and no channel is pending twice. */
  predicate SafeToClose(s: State) {
    && Incoming in s.chans && !s.chans[Incoming].closed
    && (forall t :: t in s.pending ==>
          s.pending[t] in s.chans && !s.chans[s.pending[t]].closed && s.pending[t] != Incoming)
    && (forall t, u :: t in s.pending && u in s.pending && t != u ==> s.pending[t] != s.pending[u])
  }

  function ClosedChans(s: State, targets: set<Id>): map<ChanId, Chan>
    requires targets <= s.pending.Keys
  {
    map c | c in s.chans ::
      if exists t :: t in targets && s.pending[t] == c then s.chans[c].(closed := true) else s.chans[c]
  }

  /** closeLocked; only Close itself, and only when it tears down, closes the connection. */
  function TearStep(s: State, why: Teardown): Outcome {
    if s.closed then Ok(s)
    else if !SafeToClose(s) then Panic
    else
      var chans := ClosedChans(s, s.pending.Keys);
      Ok(s.(chans := chans[Incoming := s.chans[Incoming].(closed := true)],
            pending := map[],
            closed := true,
            connOpen := s.connOpen && !why.CloseCall?))
  }

  function Apply(s: State, step: Step): Outcome {
    match step
    case Register(t, hasOut) => RegisterStep(s, t, hasOut)
    case WriteError(w) =>
      if IsWaiting(s, w) && !s.waiters[w].hasOut then Ok(Leave(s, w, WriteFailed)) else Ok(s)
    case Cancel(w) => if IsWaiting(s, w) then LeaveEmpty(s, w, Cancelled) else Ok(s)
    case Select(w) => if IsWaiting(s, w) then SelectStep(s, w) else Ok(s)
    case Cleanup(w) =>
      if w < |s.waiters| && s.waiters[w].phase.Leaving? then
        Ok(s.(pending := s.pending - {s.waiters[w].target},
              waiters := s.waiters[w := s.waiters[w].(phase := Done(s.waiters[w].phase.result))]))
      else Ok(s)
    case Dispatch(rv) => DispatchStep(s, rv)
    case Tear(why) => TearStep(s, why)
    case Consume(c) =>
      if !c.Raw? && c in s.chans && s.chans[c].buf != []
      then Ok(s.(chans := s.chans[c := s.chans[c].(buf := s.chans[c].buf[1..])]))
      else Ok(s)
  }

  function Exec(run: seq<Step>): Outcome {
    if run == [] then Ok(CONNECTED)
    else
      var before := Exec(run[..|run| - 1]);
      if before.Ok? then Apply(before.state, run[|run| - 1]) else before
  }

  /** The rendezvous messages the read loop has dispatched. */
  function Received(run: seq<Step>): set<Rendezvous> {
    if run == [] then {}
    else
      var last := run[|run| - 1];
      Received(run[..|run| - 1]) + if last.Dispatch? then {last.rv} else {}
  }

  // ---- the invariant ----

  ghost predicate PendingOk(s: State, t: Id)
    requires t in s.pending
  {
    var c := s.pending[t];
    && c.Raw? && c in s.chans && !s.chans[c].closed
    && c.waiter < |s.waiters| && s.waiters[c.waiter].target == t
  }

  /** A waiter's raw channel only ever carries rendezvous of its own target. */
  ghost predicate RawOk(s: State, seen: set<Rendezvous>, w: nat)
    requires w < |s.waiters|
  {
    && Raw(w) in s.chans
    && s.chans[Raw(w)].capacity == 1
    && forall i :: 0 <= i < |s.chans[Raw(w)].buf| ==> ForTarget(s.chans[Raw(w)].buf[i], s.waiters[w].target, seen)
  }

  ghost predicate ForTarget(rv: Rendezvous, t: Id, seen: set<Rendezvous>) {
    rv.peerNodeId == t && rv in seen
  }

  /** The channel handed out by WaitForRendezvous is open and empty until the waiter leaves. */
  ghost predicate OutOk(s: State, w: nat)
    requires w < |s.waiters|
  {
    s.waiters[w].hasOut ==>
      && Out(w) in s.chans && s.chans[Out(w)].capacity == 1
      && (s.waiters[w].phase.Waiting? ==> !s.chans[Out(w)].closed && s.chans[Out(w)].buf == [])
  }

  ghost predicate ResultOk(s: State, seen: set<Rendezvous>, w: nat)
    requires w < |s.waiters|
  {
    var p := s.waiters[w].phase;
    !p.Waiting? && p.result.Got? ==> ForTarget(p.result.rv, s.waiters[w].target, seen)
  }

  ghost predicate Inv(s: State, seen: set<Rendezvous>) {
    && Incoming in s.chans && s.chans[Incoming].closed == s.closed
    && (s.closed ==> s.pending == map[])
    && (forall t :: t in s.pending ==> PendingOk(s, t))
    && (forall w: nat :: w < |s.waiters| ==> RawOk(s, seen, w) && OutOk(s, w) && ResultOk(s, seen, w))
  }

  ghost predicate Good(o: Outcome, seen: set<Rendezvous>) {
    o.Ok? && Inv(o.state, seen)
  }

  lemma InvSafe(s: State, seen: set<Rendezvous>)
    requires Inv(s, seen) && !s.closed
    ensures SafeToClose(s)
  {
    forall t | t in s.pending
      ensures s.pending[t].Raw? && s.pending[t] in s.chans && !s.chans[s.pending[t]].closed
      ensures s.waiters[s.pending[t].waiter].target == t
    {
      assert PendingOk(s, t);
    }
  }

  lemma InvGrows(s: State, seen: set<Rendezvous>, more: set<Rendezvous>)
    requires Inv(s, seen) && seen <= more
    ensures Inv(s, more)
  {
    forall w: nat | w < |s.waiters|
      ensures RawOk(s, more, w) && ResultOk(s, more, w)
    {
      assert RawOk(s, seen, w) && ResultOk(s, seen, w);
    }
  }

  lemma RegisterGood(s: State, seen: set<Rendezvous>, t: Id, hasOut: bool)
    requires Inv(s, seen)
    ensures Good(RegisterStep(s, t, hasOut), seen)
  {
    var s' := RegisterStep(s, t, hasOut).state;
    forall w: nat | w < |s'.waiters|
      ensures RawOk(s', seen, w) && OutOk(s', w) && ResultOk(s', seen, w)
    {
      if w < |s.waiters| {
        assert RawOk(s, seen, w) && OutOk(s, w) && ResultOk(s, seen, w);
      }
    }
    forall u | u in s'.pending
      ensures PendingOk(s', u)
    {
      if u in s.pending {
        assert PendingOk(s, u);
      }
    }
  }

  /** Steps that change one waiter's phase and touch only its own two channels. */
  lemma OneWaiter(s: State, s': State, seen: set<Rendezvous>, w: nat)
    requires Inv(s, seen) && w < |s.waiters|
    requires s'.closed == s.closed && s'.pending.Keys <= s.pending.Keys
    requires forall t :: t in s'.pending ==> s'.pending[t] == s.pending[t]
    requires |s'.waiters| == |s.waiters|
    requires s'.waiters[w].target == s.waiters[w].target && s'.waiters[w].hasOut == s.waiters[w].hasOut
    requires forall v: nat :: v < |s.waiters| && v != w ==> s'.waiters[v] == s.waiters[v]
    requires s'.chans.Keys == s.chans.Keys
    requires forall c :: c in s.chans && c != Raw(w) && c != Out(w) ==> s'.chans[c] == s.chans[c]
    requires Raw(w) in s.chans && s'.chans[Raw(w)].closed == s.chans[Raw(w)].closed
    requires RawOk(s', seen, w) && OutOk(s', w) && ResultOk(s', seen, w)
    ensures Inv(s', seen)
  {
    forall v: nat | v < |s'.waiters|
      ensures RawOk(s', seen, v) && OutOk(s', v) && ResultOk(s', seen, v)
    {
      assert RawOk(s, seen, v) && OutOk(s, v) && ResultOk(s, seen, v);
    }
    forall t | t in s'.pending
      ensures PendingOk(s', t)
    {
      assert PendingOk(s, t);
    }
  }

  lemma LeaveEmptyGood(s: State, seen: set<Rendezvous>, w: nat, r: Result)
    requires Inv(s, seen) && IsWaiting(s, w) && !r.Got?
    ensures Good(LeaveEmpty(s, w, r), seen)
  {
    assert RawOk(s, seen, w) && OutOk(s, w);
    var s' := LeaveEmpty(s, w, r).state;
    assert RawOk(s', seen, w);
    OneWaiter(s, s', seen, w);
  }

  lemma SelectGood(s: State, seen: set<Rendezvous>, w: nat)
    requires Inv(s, seen) && IsWaiting(s, w)
    ensures Good(SelectStep(s, w), seen)
  {
    assert RawOk(s, seen, w) && OutOk(s, w);
    var c := s.chans[Raw(w)];
    if c.buf != [] {
      var s' := SelectStep(s, w).state;
      assert ForTarget(c.buf[0], s.waiters[w].target, seen);
      assert RawOk(s', seen, w) && OutOk(s', w) && ResultOk(s', seen, w);
      OneWaiter(s, s', seen, w);
    } else if c.closed {
      LeaveEmptyGood(s, seen, w, Disconnected);
    }
  }

  lemma CleanupGood(s: State, seen: set<Rendezvous>, w: nat)
    requires Inv(s, seen) && w < |s.waiters| && s.waiters[w].phase.Leaving?
    ensures Good(Apply(s, Cleanup(w)), seen)
  {
    assert RawOk(s, seen, w) && OutOk(s, w) && ResultOk(s, seen, w);
    var s' := Apply(s, Cleanup(w)).state;
    assert RawOk(s', seen, w) && OutOk(s', w) && ResultOk(s', seen, w);
    OneWaiter(s, s', seen, w);
  }

  lemma DispatchGood(s: State, seen: set<Rendezvous>, rv: Rendezvous)
    requires Inv(s, seen) && rv in seen
    ensures Good(DispatchStep(s, rv), seen)
  {
    if |rv.peerNodeId| == 32 && rv.peerNodeId in s.pending {
      assert PendingOk(s, rv.peerNodeId);
      var w := s.pending[rv.peerNodeId].waiter;
      assert RawOk(s, seen, w) && OutOk(s, w) && ResultOk(s, seen, w);
      var s' := DispatchStep(s, rv).state;
      assert ForTarget(rv, s.waiters[w].target, seen);
      assert RawOk(s', seen, w) && OutOk(s', w) && ResultOk(s', seen, w);
      OneWaiter(s, s', seen, w);
    } else {
      OtherChannel(s, DispatchStep(s, rv).state, seen, Incoming);
    }
  }

  /** A change to the incoming channel, or to a channel already handed out, that keeps
      its closed flag and only buffers or consumes values. */
  lemma OtherChannel(s: State, s': State, seen: set<Rendezvous>, c: ChanId)
    requires Inv(s, seen) && !c.Raw? && c in s.chans
    requires s' == s.(chans := s'.chans) && s'.chans.Keys == s.chans.Keys
    requires forall d :: d in s.chans && d != c ==> s'.chans[d] == s.chans[d]
    requires s'.chans[c].closed == s.chans[c].closed && s'.chans[c].capacity == s.chans[c].capacity
    requires c.Out? && s.chans[c].buf == [] ==> s'.chans[c].buf == []
    ensures Inv(s', seen)
  {
    forall v: nat | v < |s'.waiters|
      ensures RawOk(s', seen, v) && OutOk(s', v) && ResultOk(s', seen, v)
    {
      assert RawOk(s, seen, v) && OutOk(s, v) && ResultOk(s, seen, v);
    }
    forall t | t in s'.pending
      ensures PendingOk(s', t)
    {
      assert PendingOk(s, t);
    }
  }

  lemma TearGood(s: State, seen: set<Rendezvous>, why: Teardown)
    requires Inv(s, seen)
    ensures Good(TearStep(s, why), seen)
  {
    if !s.closed {
      InvSafe(s, seen);
      var s' := TearStep(s, why).state;
      forall v: nat | v < |s'.waiters|
        ensures RawOk(s', seen, v) && OutOk(s', v) && ResultOk(s', seen, v)
      {
        assert RawOk(s, seen, v) && OutOk(s, v) && ResultOk(s, seen, v);
        forall t | t in s.pending
          ensures s.pending[t] != Out(v)
        {
          assert PendingOk(s, t);
        }
        assert s'.chans[Raw(v)].buf == s.chans[Raw(v)].buf;
      }
    }
  }

  lemma ApplyGood(s: State, seen: set<Rendezvous>, step: Step)
    requires Inv(s, seen) && (step.Dispatch? ==> step.rv in seen)
    ensures Good(Apply(s, step), seen)
  {
    match step
    case Register(t, hasOut) => RegisterGood(s, seen, t, hasOut);
    case WriteError(w) =>
      if IsWaiting(s, w) && !s.waiters[w].hasOut {
        LeaveEmptyGood(s, seen, w, WriteFailed);
      }
    case Cancel(w) => if IsWaiting(s, w) { LeaveEmptyGood(s, seen, w, Cancelled); }
    case Select(w) => if IsWaiting(s, w) { SelectGood(s, seen, w); }
    case Cleanup(w) => if w < |s.waiters| && s.waiters[w].phase.Leaving? { CleanupGood(s, seen, w); }
    case Dispatch(rv) => DispatchGood(s, seen, rv);
    case Tear(why) => TearGood(s, seen, why);
    case Consume(c) =>
      if !c.Raw? && c in s.chans && s.chans[c].buf != [] {
        OtherChannel(s, Apply(s, step).state, seen, c);
      }
  }

  /** Channel safety in every interleaving: no channel is closed twice or sent to after
      closing, no send blocks, every pending channel is open, a closed client has no
      pending waiter and a closed incoming channel, and a waiter only ever gets a
      rendezvous of its own target that the read loop dispatched. */
  lemma {:induction false} NeverPanics(run: seq<Step>)
    ensures Good(Exec(run), Received(run))
  {
    if run != [] {
      var init, last := run[..|run| - 1], run[|run| - 1];
      NeverPanics(init);
      InvGrows(Exec(init).state, Received(init), Received(run));
      ApplyGood(Exec(init).state, Received(run), last);
    }
  }
}
