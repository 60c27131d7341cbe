/** The peer store: keys pinned on first use, merged endpoints and used invite nonces. */
module PeerStore {
  import opened Basics
  import Invite

  datatype Peer = Peer(nodeID: Id, publicKey: Bytes, endpoints: seq<string>, trust: string, lastSeen: int)

  type Peers = map<Id, Peer>

  function NotIn(s: seq<string>): string -> bool { (e: string) => e !in s }

  function Merge(existing: seq<string>, incoming: seq<string>): seq<string> {
    existing + Filter(incoming, NotIn(existing))
  }

  /** PutPeer returns ErrKeyChanged exactly when this is false. */
  predicate Accepts(peers: Peers, p: Peer) {
    p.nodeID in peers ==> peers[p.nodeID].publicKey == p.publicKey
  }

  function Put(peers: Peers, p: Peer, now: int): Peers {
    if !Accepts(peers, p) then peers
    else
      var endpoints := if p.nodeID in peers then Merge(peers[p.nodeID].endpoints, p.endpoints) else p.endpoints;
      var trust := if p.trust == "" then "tofu" else p.trust;
      peers[p.nodeID := p.(endpoints := endpoints, trust := trust, lastSeen := now)]
  }

  function Touch(peers: Peers, id: Id, now: int): Peers {
    if id in peers then peers[id := peers[id].(lastSeen := now)] else peers
  }

  // ---- runs ----

  datatype Op = PutPeer(peer: Peer, now: int) | UpdateLastSeen(id: Id, now: int)

  function Apply(peers: Peers, op: Op): Peers {
    match op
    case PutPeer(p, now) => Put(peers, p, now)
    case UpdateLastSeen(id, now) => Touch(peers, id, now)
  }

  function Exec(run: seq<Op>): Peers {
    if run == [] then map[] else Apply(Exec(run[..|run| - 1]), run[|run| - 1])
  }

  lemma ExecSnoc(run: seq<Op>, op: Op)
    ensures Exec(run + [op]) == Apply(Exec(run), op)
  {
    assert (run + [op])[..|run|] == run;
  }

  /** A known peer stays known, keeps its key, and its endpoint list is only extended. */
  lemma {:induction false} KeyNeverChanges(run: seq<Op>, more: seq<Op>, id: Id)
    requires id in Exec(run)
    ensures id in Exec(run + more)
    ensures Exec(run + more)[id].publicKey == Exec(run)[id].publicKey
    ensures Exec(run)[id].endpoints <= Exec(run + more)[id].endpoints
    decreases |more|
  {
    if more == [] {
      assert run + more == run;
    } else {
      var init, last := more[..|more| - 1], more[|more| - 1];
      KeyNeverChanges(run, init, id);
      ExecSnoc(run + init, last);
      assert run + more == run + init + [last];
    }
  }

  /** The peers given for an ID, in order. */
  function Offers(run: seq<Op>, id: Id): seq<Peer> {
    if run == [] then []
    else
      var last := run[|run| - 1];
      Offers(run[..|run| - 1], id) + if last.PutPeer? && last.peer.nodeID == id then [last.peer] else []
  }

  function SameKey(key: Bytes): Peer -> bool { (p: Peer) => p.publicKey == key }

  function EndpointsOf(): Peer -> seq<string> { (p: Peer) => p.endpoints }

  /** The endpoint lists given for an ID together with the first key given for it. */
  function Lists(run: seq<Op>, id: Id): seq<seq<string>> {
    var offers := Offers(run, id);
    if offers == [] then [] else Map(Filter(offers, SameKey(offers[0].publicKey)), EndpointsOf())
  }

  function MergeAll(lists: seq<seq<string>>): seq<string> {
    if lists == [] then []
    else if |lists| == 1 then lists[0]
    else Merge(MergeAll(lists[..|lists| - 1]), lists[|lists| - 1])
  }

  lemma ListsSnoc(run: seq<Op>, p: Peer, now: int)
    ensures var run' := run + [PutPeer(p, now)];
            var offers := Offers(run, p.nodeID);
            && Offers(run', p.nodeID) == offers + [p]
            && Lists(run', p.nodeID) == Lists(run, p.nodeID)
                 + if offers == [] || offers[0].publicKey == p.publicKey then [p.endpoints] else []
  {
    var run' := run + [PutPeer(p, now)];
    var offers := Offers(run, p.nodeID);
    assert run'[..|run|] == run;
    if offers != [] {
      var keep := SameKey(offers[0].publicKey);
      FilterAppend(offers, [p], keep);
      MapAppend(Filter(offers, keep), Filter([p], keep), EndpointsOf());
      assert Offers(run', p.nodeID)[0] == offers[0];
    } else {
      assert Offers(run', p.nodeID) == [p];
    }
  }

  lemma OthersKeepLists(run: seq<Op>, op: Op, id: Id)
    requires op.PutPeer? ==> op.peer.nodeID != id
    ensures Offers(run + [op], id) == Offers(run, id) && Lists(run + [op], id) == Lists(run, id)
  {
    assert (run + [op])[..|run|] == run;
  }

  lemma MergeAllSnoc(lists: seq<seq<string>>, l: seq<string>)
    ensures MergeAll(lists + [l]) == if lists == [] then l else Merge(MergeAll(lists), l)
  {
    assert (lists + [l])[..|lists|] == lists;
  }

  ghost predicate Merged(run: seq<Op>, id: Id) {
    var offers, lists := Offers(run, id), Lists(run, id);
    && (id in Exec(run) <==> offers != [])
    && (id in Exec(run) ==>
          && lists != []
          && Exec(run)[id].publicKey == offers[0].publicKey
          && Exec(run)[id].endpoints == MergeAll(lists))
  }

  lemma MergedPut(run: seq<Op>, p: Peer, now: int)
    requires Merged(run, p.nodeID)
    ensures Merged(run + [PutPeer(p, now)], p.nodeID)
  {
    var id := p.nodeID;
    var offers, lists := Offers(run, id), Lists(run, id);
    ExecSnoc(run, PutPeer(p, now));
    ListsSnoc(run, p, now);
    if Accepts(Exec(run), p) {
      MergeAllSnoc(lists, p.endpoints);
      assert Lists(run + [PutPeer(p, now)], id) == lists + [p.endpoints];
    } else {
      assert Lists(run + [PutPeer(p, now)], id) == lists;
    }
  }

  /** A peer is known exactly when it was put; its key is the first one given, and its
      endpoints are the merge of the lists given with that key. */
  lemma {:induction false} StoredIsMerged(run: seq<Op>, id: Id)
    ensures Merged(run, id)
  {
    if run != [] {
      var init, last := run[..|run| - 1], run[|run| - 1];
      assert run == init + [last];
      StoredIsMerged(init, id);
      if last.PutPeer? && last.peer.nodeID == id {
        MergedPut(init, last.peer, last.now);
      } else {
        ExecSnoc(init, last);
        OthersKeepLists(init, last, id);
      }
    }
  }

  /** When a peer was last put with the key it is known by, or seen while known. */
  function SeenLast(run: seq<Op>, id: Id): Option<int> {
    if run == [] then None
    else
      var before := SeenLast(run[..|run| - 1], id);
      match run[|run| - 1]
      case PutPeer(p, now) =>
        var offers := Offers(run[..|run| - 1], id);
        if p.nodeID == id && (offers == [] || offers[0].publicKey == p.publicKey) then Some(now) else before
      case UpdateLastSeen(n, now) => if n == id && before.Some? then Some(now) else before
  }

  /** The trust given with the last accepted put; none given means trust on first use. */
  function TrustLast(run: seq<Op>, id: Id): string {
    if run == [] then ""
    else
      var last, offers := run[|run| - 1], Offers(run[..|run| - 1], id);
      if last.PutPeer? && last.peer.nodeID == id && (offers == [] || offers[0].publicKey == last.peer.publicKey)
      then if last.peer.trust == "" then "tofu" else last.peer.trust
      else TrustLast(run[..|run| - 1], id)
  }

  /** In every run a known peer's last-seen time is that of its last accepted put or
      update, an unknown peer is never touched, and its trust is the last one given. */
  lemma {:induction false} SeenAndTrusted(run: seq<Op>, id: Id)
    ensures id in Exec(run) <==> SeenLast(run, id).Some?
    ensures id in Exec(run) ==>
              && Exec(run)[id].lastSeen == SeenLast(run, id).value && Exec(run)[id].trust == TrustLast(run, id)
              && Exec(run)[id].nodeID == id
  {
    if run != [] {
      SeenAndTrusted(run[..|run| - 1], id);
      StoredIsMerged(run[..|run| - 1], id);
    }
  }

  lemma MergeMember(a: seq<string>, b: seq<string>, e: string)
    ensures e in Merge(a, b) <==> e in a || e in b
  {
    var added := Filter(b, NotIn(a));
    if e in added {
      var i :| 0 <= i < |added| && added[i] == e;
      var j := FilterOrigin(b, NotIn(a), i);
    }
    if e in b && e !in a {
      var j :| 0 <= j < |b| && b[j] == e;
      var i := FilterImage(b, NotIn(a), j);
    }
  }

  predicate Held(lists: seq<seq<string>>, e: string) {
    exists i :: 0 <= i < |lists| && e in lists[i]
  }

  function NotHeld(lists: seq<seq<string>>): string -> bool { (e: string) => !Held(lists, e) }

  lemma {:induction false} MergeAllMember(lists: seq<seq<string>>, e: string)
    ensures e in MergeAll(lists) <==> Held(lists, e)
  {
    if |lists| > 1 {
      var init, last := lists[..|lists| - 1], lists[|lists| - 1];
      MergeAllMember(init, e);
      MergeMember(MergeAll(init), last, e);
      if i :| 0 <= i < |lists| && e in lists[i] {
        assert i < |init| ==> init[i] == lists[i];
      }
    }
  }

  /** The stored endpoints are the union of all accepted lists. */
  lemma EndpointsAreUnion(run: seq<Op>, id: Id, e: string)
    requires id in Exec(run)
    ensures e in Exec(run)[id].endpoints <==> Held(Lists(run, id), e)
  {
    StoredIsMerged(run, id);
    MergeAllMember(Lists(run, id), e);
  }

  // ---- duplicates ----

  ghost predicate NoDup(s: seq<string>) {
    forall i, j :: 0 <= i < j < |s| ==> s[i] != s[j]
  }

  /** What list i brings that no earlier list held. */
  function NewIn(lists: seq<seq<string>>, i: nat): seq<string>
    requires i < |lists|
  {
    Filter(lists[i], NotHeld(lists[..i]))
  }

  ghost predicate NewAreDistinct(lists: seq<seq<string>>) {
    forall i :: 0 <= i < |lists| ==> NoDup(NewIn(lists, i))
  }

  lemma NoDupConcat(a: seq<string>, b: seq<string>)
    requires forall e :: e in b ==> e !in a
    ensures NoDup(a + b) <==> NoDup(a) && NoDup(b)
  {
    if NoDup(a) && NoDup(b) {
      forall i, j | 0 <= i < j < |a + b|
        ensures (a + b)[i] != (a + b)[j]
      {
        if j >= |a| {
          assert b[j - |a|] in b;
        }
      }
    }
    if NoDup(a + b) {
      forall i, j | 0 <= i < j < |a|
        ensures a[i] != a[j]
      {
        assert (a + b)[i] != (a + b)[j];
      }
      forall i, j | 0 <= i < j < |b|
        ensures b[i] != b[j]
      {
        assert (a + b)[|a| + i] != (a + b)[|a| + j];
      }
    }
  }

  lemma MergeNoDup(a: seq<string>, b: seq<string>)
    ensures NoDup(Merge(a, b)) <==> NoDup(a) && NoDup(Filter(b, NotIn(a)))
  {
    var added := Filter(b, NotIn(a));
    forall e | e in added
      ensures e !in a
    {
      var i :| 0 <= i < |added| && added[i] == e;
      var j := FilterOrigin(b, NotIn(a), i);
    }
    NoDupConcat(a, added);
  }

  lemma LastIsNew(lists: seq<seq<string>>)
    requires lists != []
    ensures var n := |lists| - 1; NewIn(lists, n) == Filter(lists[n], NotIn(MergeAll(lists[..n])))
  {
    var n := |lists| - 1;
    forall e
      ensures NotHeld(lists[..n])(e) == NotIn(MergeAll(lists[..n]))(e)
    {
      MergeAllMember(lists[..n], e);
    }
    FilterSame(lists[n], NotHeld(lists[..n]), NotIn(MergeAll(lists[..n])));
  }

  lemma {:induction false} MergedNoDup(lists: seq<seq<string>>)
    ensures NoDup(MergeAll(lists)) <==> NewAreDistinct(lists)
  {
    if |lists| == 1 {
      LastIsNew(lists);
      FilterAll(lists[0], NotIn([]));
    } else if |lists| > 1 {
      var n := |lists| - 1;
      var init := lists[..n];
      MergedNoDup(init);
      LastIsNew(lists);
      MergeNoDup(MergeAll(init), lists[n]);
      forall i | 0 <= i < n
        ensures NewIn(init, i) == NewIn(lists, i)
      {
        assert init[..i] == lists[..i];
      }
      assert NewAreDistinct(lists) <==> NewAreDistinct(init) && NoDup(NewIn(lists, n));
    }
  }

  /** The stored list is duplicate-free if and only if no accepted list repeats an
      endpoint that was new with it. */
  lemma NoDuplicatesIff(run: seq<Op>, id: Id)
    requires id in Exec(run)
    ensures NoDup(Exec(run)[id].endpoints) <==> NewAreDistinct(Lists(run, id))
  {
    StoredIsMerged(run, id);
    MergedNoDup(Lists(run, id));
  }

  lemma {:induction false} FilterNoDup(s: seq<string>, keep: string -> bool)
    requires NoDup(s)
    ensures NoDup(Filter(s, keep))
  {
    if s != [] {
      FilterNoDup(s[1..], keep);
      FilterMembers(s[1..], keep);
      assert s[0] !in s[1..];
      var rest := Filter(s[1..], keep);
      forall e | e in rest
        ensures e !in [s[0]]
      {
      }
      NoDupConcat([s[0]], rest);
    }
  }

  /** In particular when every accepted list is duplicate-free. */
  lemma DistinctListsMergeDistinct(run: seq<Op>, id: Id)
    requires id in Exec(run)
    requires forall i :: 0 <= i < |Lists(run, id)| ==> NoDup(Lists(run, id)[i])
    ensures NoDup(Exec(run)[id].endpoints)
  {
    var lists := Lists(run, id);
    forall i | 0 <= i < |lists|
      ensures NoDup(NewIn(lists, i))
    {
      FilterNoDup(lists[i], NotHeld(lists[..i]));
    }
    NoDuplicatesIff(run, id);
  }

  /** An endpoint repeated within one incoming list is stored twice. */
  lemma RepeatedNewEndpoint(p: Peer, e: string, now: int) returns (run: seq<Op>)
    requires e !in p.endpoints
    ensures Exec(run) == map[p.nodeID := Peer(p.nodeID, p.publicKey, p.endpoints + [e, e],
                                              if p.trust == "" then "tofu" else p.trust, now)]
  {
    var a, b := PutPeer(p, now), PutPeer(p.(endpoints := [e, e]), now);
    run := [] + [a] + [b];
    ExecSnoc([], a);
    ExecSnoc([] + [a], b);
    assert Filter([e, e], NotIn(p.endpoints)) == [e, e] by {
      assert [e, e] == [e] + [e];
      FilterAppend([e], [e], NotIn(p.endpoints));
    }
    assert map[p.nodeID := Exec([] + [a])[p.nodeID]] == Exec([] + [a]);
  }

  // ---- the code ----

  method MergeEndpoints(existing: seq<string>, incoming: seq<string>) returns (result: seq<string>)
    ensures result == Merge(existing, incoming)
  {
    var seen: set<string> := {};
    result := [];
    for i := 0 to |existing|
      invariant result == existing[..i]
      invariant forall e :: e in seen <==> e in existing[..i]
    {
      seen := seen + {existing[i]};
      result := result + [existing[i]];
    }
    assert existing[..|existing|] == existing;
    for i := 0 to |incoming|
      invariant result == existing + Filter(incoming[..i], NotIn(existing))
    {
      var e := incoming[i];
      assert incoming[..i + 1] == incoming[..i] + [e];
      FilterAppend(incoming[..i], [e], NotIn(existing));
      if e !in seen {
        result := result + [e];
      }
    }
    assert incoming[..|incoming|] == incoming;
  }

  class Store {
    var peers: Peers
    var nonces: set<Invite.Nonce>

    constructor ()
      ensures peers == map[] && nonces == {}
    {
      peers, nonces := map[], {};
    }

    method PutPeer(p: Peer, now: int) returns (ok: bool)
      modifies this
      ensures ok <==> Accepts(old(peers), p)
      ensures peers == Put(old(peers), p, now) && nonces == old(nonces)
    {
      var updated := p;
      if p.nodeID in peers {
        var prev := peers[p.nodeID];
        if prev.publicKey != updated.publicKey {
          return false;
        }
        var merged := MergeEndpoints(prev.endpoints, updated.endpoints);
        updated := updated.(endpoints := merged);
      }
      if updated.trust == "" {
        updated := updated.(trust := "tofu");
      }
      updated := updated.(lastSeen := now);
      peers := peers[p.nodeID := updated];
      ok := true;
    }

    method UpdateLastSeen(id: Id, now: int)
      modifies this
      ensures peers == Touch(old(peers), id, now) && nonces == old(nonces)
    {
      if id !in peers {
        return;
      }
      var p := peers[id];
      p := p.(lastSeen := now);
      peers := peers[id := p];
    }

    method HasNonce(n: Invite.Nonce) returns (found: bool)
      ensures found <==> n in nonces
    {
      found := n in nonces;
    }

    method SaveNonce(n: Invite.Nonce)
      modifies this
      ensures peers == old(peers) && nonces == old(nonces) + {n}
    {
      nonces := nonces + {n};
    }

    /** Validate against this store, with no other call in between. */
    method Validate(ed: Invite.Ed25519, t: Invite.Token, raw: string, now: int) returns (v: Invite.Verdict)
      modifies this
      ensures v == Invite.Validate(ed, t, raw, old(nonces), now)
      ensures peers == old(peers) && nonces == if v.Accepted? then old(nonces) + {t.nonce} else old(nonces)
    {
      v := Invite.Validate(ed, t, raw, {}, now);
      if v != Invite.Accepted {
        return;
      }
      var has := HasNonce(t.nonce);
      if has {
        return Invite.Replayed;
      }
      SaveNonce(t.nonce);
    }
  }
}
