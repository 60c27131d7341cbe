/** The relay client as an object: the lock-held regions, with the loop of closeLocked. */
module RelayClientObject {
  import opened Basics
  import opened RelayClient

  class Client {
    var chans: map<ChanId, Chan>
    var pending: map<Id, ChanId>
    var closed: bool
    var connOpen: bool
    var waiters: seq<Waiter>

    function Abs(): State
      reads this
    {
      State(chans, pending, closed, connOpen, waiters)
    }

    constructor ()
      ensures Abs() == CONNECTED
    {
      chans, pending := map[Incoming := Chan([], INCOMING_CAPACITY, false)], map[];
      closed, connOpen, waiters := false, true, [];
    }

    /** close(c): a closed channel would panic. */
    method CloseChannel(c: ChanId)
      requires c in chans && !chans[c].closed
      modifies this`chans
      ensures Ok(Abs()) == CloseChan(old(Abs()), c)
    {
      chans := chans[c := chans[c].(closed := true)];
    }

    /** select { case c <- v: default: }. */
    method TrySendTo(c: ChanId, v: Rendezvous)
      requires c in chans && !chans[c].closed
      modifies this`chans
      ensures Ok(Abs()) == TrySend(old(Abs()), c, v)
    {
      if |chans[c].buf| < chans[c].capacity {
        chans := chans[c := chans[c].(buf := chans[c].buf + [v])];
      }
    }

    /** The first lock region of RequestRendezvous and WaitForRendezvous. */
    method RegisterWaiter(target: Id, hasOut: bool, ghost seen: set<Rendezvous>) returns (w: nat)
      requires Inv(Abs(), seen)
      modifies this
      ensures w == |old(waiters)| && Ok(Abs()) == Apply(old(Abs()), Register(target, hasOut))
      ensures Inv(Abs(), seen)
    {
      ApplyGood(Abs(), seen, Register(target, hasOut));
      w := |waiters|;
      chans := chans[Raw(w) := Chan([], 1, false)];
      if hasOut {
        chans := chans[Out(w) := Chan([], 1, false)];
      }
      if closed {
        waiters := waiters + [Waiter(target, hasOut, Done(Disconnected))];
        if hasOut {
          CloseChannel(Out(w));
        }
      } else {
        pending := pending[target := Raw(w)];
        waiters := waiters + [Waiter(target, hasOut, Waiting)];
      }
    }

    /** The deferred lock region: the entry is deleted by target alone. */
    method Unregister(w: nat, ghost seen: set<Rendezvous>)
      requires Inv(Abs(), seen) && w < |waiters| && waiters[w].phase.Leaving?
      modifies this
      ensures Ok(Abs()) == Apply(old(Abs()), Cleanup(w)) && Inv(Abs(), seen)
    {
      ApplyGood(Abs(), seen, Cleanup(w));
      pending := pending - {waiters[w].target};
      waiters := waiters[w := waiters[w].(phase := Done(waiters[w].phase.result))];
    }

    method DispatchRendezvous(rv: Rendezvous, ghost seen: set<Rendezvous>)
      requires Inv(Abs(), seen) && rv in seen
      modifies this
      ensures Ok(Abs()) == Apply(old(Abs()), Dispatch(rv)) && Inv(Abs(), seen)
    {
      ApplyGood(Abs(), seen, Dispatch(rv));
      if |rv.peerNodeId| != 32 {
        return;
      }
      if rv.peerNodeId in pending {
        assert PendingOk(Abs(), rv.peerNodeId);
        TrySendTo(pending[rv.peerNodeId], rv);
        return;
      }
      if closed {
        return;
      }
      TrySendTo(Incoming, rv);
    }

    /** One turn of the loop in closeLocked: the channel is met open, since no channel
        is pending twice. */
    method CloseOne(k: Id, ghost s: State, ghost visited: set<Id>)
      requires SafeToClose(s) && visited <= s.pending.Keys && k in s.pending && k !in visited
      requires k in pending && pending[k] == s.pending[k] && chans == ClosedChans(s, visited)
      modifies this`chans, this`pending
      ensures pending == old(pending) - {k} && chans == ClosedChans(s, visited + {k})
    {
      OneMoreClosed(s, visited, k);
      CloseChannel(pending[k]);
      pending := pending - {k};
    }

    /** The range loop of closeLocked, in any order. */
    method ClosePending()
      requires SafeToClose(Abs())
      modifies this`chans, this`pending
      ensures pending == map[]
      ensures chans == ClosedChans(old(Abs()), old(pending.Keys))
    {
      ghost var s := Abs();
      ghost var visited: set<Id> := {};
      assert ClosedChans(s, {}) == chans;
      var todo := pending.Keys;
      while todo != {}
        invariant todo == pending.Keys && visited + todo == s.pending.Keys && visited !! todo
        invariant forall t :: t in todo ==> pending[t] == s.pending[t]
        invariant chans == ClosedChans(s, visited)
        decreases todo
      {
        var k :| k in todo;
        CloseOne(k, s, visited);
        todo := todo - {k};
        visited := visited + {k};
      }
      assert visited == s.pending.Keys;
    }

    method CloseLocked(ghost seen: set<Rendezvous>) returns (did: bool)
      requires Inv(Abs(), seen)
      modifies this
      ensures did == !old(closed)
      ensures Ok(Abs()) == Apply(old(Abs()), Tear(ReadFailure)) && Inv(Abs(), seen)
    {
      ApplyGood(Abs(), seen, Tear(ReadFailure));
      if closed {
        return false;
      }
      InvSafe(Abs(), seen);
      closed := true;
      ClosePending();
      CloseChannel(Incoming);
      did := true;
    }

    method Close(ghost seen: set<Rendezvous>)
      requires Inv(Abs(), seen)
      modifies this
      ensures Ok(Abs()) == Apply(old(Abs()), Tear(CloseCall)) && Inv(Abs(), seen)
    {
      ApplyGood(Abs(), seen, Tear(CloseCall));
      var did := CloseLocked(seen);
      if did {
        connOpen := false;
      }
    }
  }

  /** Closing one more channel: it was open until now, and it is the only change. */
  lemma OneMoreClosed(s: State, visited: set<Id>, k: Id)
    requires SafeToClose(s) && visited <= s.pending.Keys && k in s.pending && k !in visited
    ensures var chans := ClosedChans(s, visited);
            && s.pending[k] in chans && !chans[s.pending[k]].closed
            && chans[s.pending[k] := chans[s.pending[k]].(closed := true)] == ClosedChans(s, visited + {k})
  {
  }
}
