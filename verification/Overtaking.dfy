/** Offers that arrive in another order than they were listed, and owners of relayed files. */
module Overtaking {
  import opened Basics
  import opened Catalog
  import opened CatalogLaws
  import opened Convert
  import opened Exchange
  import opened Sync
  import Provenance

  // ---- whose files a receiver holds ----

  /** The file b listed last for f in the offer of b that was delivered last at c. */
  ghost function ListedLast(ids: set<Id>, run: seq<Step>, b: Id, c: Id, f: Id): Option<Entry>
    requires b in ids && c in ids && b != c
  {
    var m := LastDelivered(ids, run, b, c);
    if m.None? then None
    else
      DeliveredWasListed(ids, run, b, c);
      LastListed(ForPeer(Exec(ids, run[..m.value.at]).nodes[b], c), f)
  }

  lemma HeldIsListed(ids: set<Id>, run: seq<Step>, b: Id, c: Id, f: Id)
    requires b in ids && c in ids && b != c
    ensures c in Exec(ids, run).nodes
    ensures var e, l := Lookup(Exec(ids, run).nodes[c], b, f), ListedLast(ids, run, b, c, f);
            && e.Some? == l.Some?
            && (e.Some? ==> Provenance.FactOf(e.value) == Provenance.FactOf(l.value))
  {
    ReceiverHoldsLastDelivered(ids, run, b, c, f);
    var m := LastDelivered(ids, run, b, c);
    if m.Some? {
      DeliveredWasListed(ids, run, b, c);
      var es := ForPeer(Exec(ids, run[..m.value.at]).nodes[b], c);
      AcceptedOfSent(es);
      LastListedOfMap(es, f);
      if LastListed(es, f).Some? {
        TruncateTime(LastListed(es, f).value.modTime);
      }
    }
  }

  lemma {:induction false} PutsGrow(ids: set<Id>, run: seq<Step>, t: nat)
    requires t <= |run|
    ensures Provenance.Puts(ids, run[..t]) <= Provenance.Puts(ids, run)
  {
    if t == |run| {
      assert run[..t] == run;
    } else {
      PutsGrow(ids, run[..|run| - 1], t);
      assert run[..|run| - 1][..t] == run[..t];
    }
  }

  /** What b lists as its own was put at b. */
  lemma OwnListedWasPut(ids: set<Id>, run: seq<Step>, b: Id, c: Id, f: Id)
    requires b in ids && c in ids && b != c
    requires var l := ListedLast(ids, run, b, c, f); l.Some? && l.value.owner == b
    ensures (b, Provenance.FactOf(ListedLast(ids, run, b, c, f).value)) in Provenance.Puts(ids, run)
  {
    DeliveredWasListed(ids, run, b, c);
    var t := LastDelivered(ids, run, b, c).value.at;
    var db := Exec(ids, run[..t]).nodes[b];
    Provenance.EveryEntryWasPut(ids, run[..t]);
    assert Provenance.NodeOk(Provenance.Puts(ids, run[..t]), b, db);
    LastListedIsLast(ForPeer(db, c), f);
    var i :| 0 <= i < |ForPeer(db, c)| && ForPeer(db, c)[i] == ListedLast(ids, run, b, c, f).value;
    ForPeerMember(db, c, i);
    PutsGrow(ids, run, t);
  }

  /** For any number of nodes: everything c holds under b was put at b if and only if
      b also put whatever it listed from another owner in its last delivered offer. */
  lemma HeldWasPutIff(ids: set<Id>, run: seq<Step>, b: Id, c: Id)
    requires b in ids && c in ids && b != c
    ensures c in Exec(ids, run).nodes
    ensures var puts := Provenance.Puts(ids, run);
            (forall f: Id :: var e := Lookup(Exec(ids, run).nodes[c], b, f);
               e.Some? ==> (b, Provenance.FactOf(e.value)) in puts)
            <==>
            (forall f: Id :: var l := ListedLast(ids, run, b, c, f);
               l.Some? && l.value.owner != b ==> (b, Provenance.FactOf(l.value)) in puts)
  {
    var puts := Provenance.Puts(ids, run);
    HeldIsListed(ids, run, b, c, b);
    forall f: Id
      ensures var e, l := Lookup(Exec(ids, run).nodes[c], b, f), ListedLast(ids, run, b, c, f);
              && e.Some? == l.Some?
              && (e.Some? ==> Provenance.FactOf(e.value) == Provenance.FactOf(l.value))
      ensures var l := ListedLast(ids, run, b, c, f);
              l.Some? && l.value.owner == b ==> (b, Provenance.FactOf(l.value)) in puts
    {
      HeldIsListed(ids, run, b, c, f);
      var l := ListedLast(ids, run, b, c, f);
      if l.Some? && l.value.owner == b {
        OwnListedWasPut(ids, run, b, c, f);
      }
    }
  }

  // ---- an offer overtaken between its listing and its send ----

  lemma EmptyOffersNothing(b: Id, f: Id)
    ensures !Offered(EMPTY_DB, b, f)
  {
    forall o: Id
      ensures !LiveAt(EMPTY_DB, o, f)
    {
    }
  }

  /** The last delivered offer was listed before a had any file, and now it has one. */
  lemma StaleMeansNotCurrent(ids: set<Id>, run: seq<Step>, a: Id, b: Id, e: Entry)
    requires a in ids && b in ids && a != b && Encodable(e.modTime)
    requires var m := LastDelivered(ids, run, a, b);
             m.Some? && m.value.at <= |run| && a in Exec(ids, run[..m.value.at]).nodes
             && Exec(ids, run[..m.value.at]).nodes[a] == EMPTY_DB
    requires a in Exec(ids, run).nodes && Exec(ids, run).nodes[a] == PutLocal(EMPTY_DB, a, e, 0)
    ensures Exec(ids, run).nodes.Keys == ids && !Current(Exec(ids, run), a, b)
  {
    CurrentIffListedSame(ids, run, a, b);
    EmptyOffersNothing(b, e.fileID);
    PutLocalLookup(EMPTY_DB, a, e, 0, a, e.fileID);
    assert LiveAt(Exec(ids, run).nodes[a], a, e.fileID);
  }

  /** Two nodes, with a's store, its offers on each connection and its sends under way. */
  ghost predicate Shape(net: Net, a: Id, b: Id, dbA: Db, qs: seq<seq<Mail>>, s: seq<Sending>, clock: nat) {
    && net.nodes.Keys == {a, b} && net.nodes[a] == dbA
    && net.next == |qs|
    && (forall k: nat :: Pipe(k, a, b) in net.pipes <==> k < |qs|)
    && (forall k: nat :: k < |qs| ==> net.pipes[Pipe(k, a, b)] == qs[k])
    && net.sending == s && net.clock == clock
  }

  lemma ShapeConnect(net: Net, a: Id, b: Id, dbA: Db, qs: seq<seq<Mail>>, s: seq<Sending>, t: nat)
    requires a != b && Shape(net, a, b, dbA, qs, s, t)
    ensures Shape(Apply(net, Connect(a, b)), a, b, dbA, qs + [[]], s, t + 1)
  {
  }

  lemma ShapeList(net: Net, a: Id, b: Id, dbA: Db, qs: seq<seq<Mail>>, s: seq<Sending>, t: nat, k: nat)
    requires a != b && Shape(net, a, b, dbA, qs, s, t)
    ensures var p := Pipe(k, a, b);
            Shape(Apply(net, ListOffer(p)), a, b, dbA, qs, s + [Sending(p, Mail(OfferTo(dbA, b), t))], t + 1)
  {
  }

  lemma ShapePut(net: Net, a: Id, b: Id, dbA: Db, qs: seq<seq<Mail>>, s: seq<Sending>, t: nat, e: Entry)
    requires Shape(net, a, b, dbA, qs, s, t)
    ensures Shape(Apply(net, LocalPut(a, e, 0)), a, b, PutLocal(dbA, a, e, 0), qs, s, t + 1)
  {
  }

  lemma ShapeSend(net: Net, a: Id, b: Id, dbA: Db, qs: seq<seq<Mail>>, s: seq<Sending>, t: nat, i: nat, k: nat)
    requires a != b && Shape(net, a, b, dbA, qs, s, t) && i < |s| && k < |qs| && s[i].pipe == Pipe(k, a, b)
    ensures Shape(Apply(net, Send(i, true)), a, b, dbA, qs[k := qs[k] + [s[i].mail]], RemoveAt(s, i), t + 1)
    ensures s[i].mail.msg.Offer? ==> Sends(net, Send(i, true), a, b)
  {
  }

  lemma ShapeDeliver(net: Net, a: Id, b: Id, dbA: Db, qs: seq<seq<Mail>>, s: seq<Sending>, t: nat, k: nat)
    returns (s': seq<Sending>)
    requires a != b && Shape(net, a, b, dbA, qs, s, t) && k < |qs| && qs[k] != [] && qs[k][0].msg.Offer?
    ensures Shape(Apply(net, Deliver(Pipe(k, a, b), 0)), a, b, dbA, qs[k := qs[k][1..]], s', t + 1)
    ensures Delivers(net, Deliver(Pipe(k, a, b), 0), a, b) && Queue(net, Pipe(k, a, b)) == qs[k]
  {
    s' := s + Reply(net, Pipe(k, a, b), 0);
  }

  /** A run in this shape that lost nothing, with the offers sent and delivered last. */
  ghost predicate Orderly(run: seq<Step>, a: Id, b: Id, sent: Option<Mail>, delivered: Option<Mail>,
                          dbA: Db, qs: seq<seq<Mail>>, s: seq<Sending>) {
    var ids := {a, b};
    && Kept(ids, run, a, b) && (|qs| <= 1 ==> AlwaysSingle(ids, run, a, b))
    && LastSent(ids, run, a, b) == sent && LastDelivered(ids, run, a, b) == delivered
    && Shape(Exec(ids, run), a, b, dbA, qs, s, |run|)
  }

  lemma Extend(run: seq<Step>, step: Step, a: Id, b: Id, sent: Option<Mail>, delivered: Option<Mail>,
               dbA: Db, qs: seq<seq<Mail>>, s: seq<Sending>, dbA': Db, qs': seq<seq<Mail>>, s': seq<Sending>)
    requires Orderly(run, a, b, sent, delivered, dbA, qs, s) && !step.Disconnect? && |qs| <= |qs'|
    requires Shape(Apply(Exec({a, b}, run), step), a, b, dbA', qs', s', |run| + 1)
    ensures var net := Exec({a, b}, run);
            Orderly(run + [step], a, b,
                    if Sends(net, step, a, b) then Some(net.sending[step.i].mail) else sent,
                    if Delivers(net, step, a, b) then Some(Queue(net, step.pipe)[0]) else delivered,
                    dbA', qs', s')
  {
    var ids, run' := {a, b}, run + [step];
    assert run'[..|run|] == run;
    LastSnoc(ids, run, step, a, b);
    if |qs'| <= 1 {
      assert Single(Exec(ids, run'), a, b);
    }
  }

  lemma LastSnoc(ids: set<Id>, run: seq<Step>, step: Step, a: Id, b: Id)
    requires Kept(ids, run, a, b) && !step.Disconnect?
    ensures var net, run' := Exec(ids, run), run + [step];
            && Exec(ids, run') == Apply(net, step) && Kept(ids, run', a, b)
            && LastSent(ids, run', a, b) ==
                 (if Sends(net, step, a, b) then Some(net.sending[step.i].mail) else LastSent(ids, run, a, b))
            && LastDelivered(ids, run', a, b) ==
                 (if Delivers(net, step, a, b) then Some(Queue(net, step.pipe)[0]) else LastDelivered(ids, run, a, b))
  {
    assert (run + [step])[..|run|] == run;
  }

  lemma Started(a: Id, b: Id)
    ensures Orderly([], a, b, None, None, EMPTY_DB, [], [])
  {
  }

  lemma Connected(start: seq<Step>, a: Id, b: Id, dbA: Db, qs: seq<seq<Mail>>, s: seq<Sending>) returns (run: seq<Step>)
    requires a != b && Orderly(start, a, b, None, None, dbA, qs, s)
    ensures run == start + [Connect(a, b)] && Orderly(run, a, b, None, None, dbA, qs + [[]], s)
  {
    ShapeConnect(Exec({a, b}, start), a, b, dbA, qs, s, |start|);
    Extend(start, Connect(a, b), a, b, None, None, dbA, qs, s, dbA, qs + [[]], s);
    run := start + [Connect(a, b)];
  }

  lemma Listed(start: seq<Step>, a: Id, b: Id, sent: Option<Mail>, dbA: Db, qs: seq<seq<Mail>>, s: seq<Sending>, k: nat)
    returns (run: seq<Step>)
    requires a != b && Orderly(start, a, b, sent, None, dbA, qs, s)
    ensures run == start + [ListOffer(Pipe(k, a, b))]
    ensures Orderly(run, a, b, sent, None, dbA, qs, s + [Sending(Pipe(k, a, b), Mail(OfferTo(dbA, b), |start|))])
  {
    var x := Sending(Pipe(k, a, b), Mail(OfferTo(dbA, b), |start|));
    ShapeList(Exec({a, b}, start), a, b, dbA, qs, s, |start|, k);
    Extend(start, ListOffer(Pipe(k, a, b)), a, b, sent, None, dbA, qs, s, dbA, qs, s + [x]);
    run := start + [ListOffer(Pipe(k, a, b))];
  }

  lemma PutAfter(start: seq<Step>, a: Id, b: Id, sent: Option<Mail>, dbA: Db, qs: seq<seq<Mail>>, s: seq<Sending>, e: Entry)
    returns (run: seq<Step>)
    requires Orderly(start, a, b, sent, None, dbA, qs, s)
    ensures run == start + [LocalPut(a, e, 0)] && Orderly(run, a, b, sent, None, PutLocal(dbA, a, e, 0), qs, s)
  {
    ShapePut(Exec({a, b}, start), a, b, dbA, qs, s, |start|, e);
    Extend(start, LocalPut(a, e, 0), a, b, sent, None, dbA, qs, s, PutLocal(dbA, a, e, 0), qs, s);
    run := start + [LocalPut(a, e, 0)];
  }

  lemma Sent(start: seq<Step>, a: Id, b: Id, sent: Option<Mail>, dbA: Db, qs: seq<seq<Mail>>, s: seq<Sending>, i: nat, k: nat)
    returns (run: seq<Step>)
    requires a != b && Orderly(start, a, b, sent, None, dbA, qs, s)
    requires i < |s| && k < |qs| && s[i].pipe == Pipe(k, a, b) && s[i].mail.msg.Offer?
    ensures run == start + [Send(i, true)]
    ensures Orderly(run, a, b, Some(s[i].mail), None, dbA, qs[k := qs[k] + [s[i].mail]], RemoveAt(s, i))
  {
    ShapeSend(Exec({a, b}, start), a, b, dbA, qs, s, |start|, i, k);
    Extend(start, Send(i, true), a, b, sent, None, dbA, qs, s, dbA, qs[k := qs[k] + [s[i].mail]], RemoveAt(s, i));
    run := start + [Send(i, true)];
  }

  lemma Delivered(start: seq<Step>, a: Id, b: Id, sent: Option<Mail>, was: Option<Mail>, dbA: Db, qs: seq<seq<Mail>>,
                  s: seq<Sending>, k: nat)
    returns (run: seq<Step>, s': seq<Sending>)
    requires a != b && Orderly(start, a, b, sent, was, dbA, qs, s)
    requires k < |qs| && qs[k] != [] && qs[k][0].msg.Offer?
    ensures run == start + [Deliver(Pipe(k, a, b), 0)]
    ensures Orderly(run, a, b, sent, Some(qs[k][0]), dbA, qs[k := qs[k][1..]], s')
  {
    s' := ShapeDeliver(Exec({a, b}, start), a, b, dbA, qs, s, |start|, k);
    Extend(start, Deliver(Pipe(k, a, b), 0), a, b, sent, was, dbA, qs, s, dbA, qs[k := qs[k][1..]], s');
    run := start + [Deliver(Pipe(k, a, b), 0)];
  }

  /** Nothing is left on any connection. */
  lemma AllArrived(run: seq<Step>, a: Id, b: Id, sent: Option<Mail>, delivered: Option<Mail>,
                   dbA: Db, qs: seq<seq<Mail>>, s: seq<Sending>)
    requires Orderly(run, a, b, sent, delivered, dbA, qs, s) && forall k :: 0 <= k < |qs| ==> qs[k] == []
    ensures Arrived(Exec({a, b}, run), a, b)
  {
    var net := Exec({a, b}, run);
    forall k: nat
      ensures Queue(net, Pipe(k, a, b)) == []
    {
      assert Pipe(k, a, b) in net.pipes <==> k < |qs|;
    }
  }

  /** Two announcements under way: one listed before the file was put, one after. */
  lemma ListedAndPut(a: Id, b: Id, e: Entry) returns (run: seq<Step>)
    requires a != b
    ensures var dbA, p := PutLocal(EMPTY_DB, a, e, 0), Pipe(0, a, b);
            var s := [Sending(p, Mail(OfferTo(EMPTY_DB, b), 1)), Sending(p, Mail(OfferTo(dbA, b), 3))];
            && |run| == 4 && Orderly(run, a, b, None, None, dbA, [[]], s)
            && Orderly(run[..1], a, b, None, None, EMPTY_DB, [[]], [])
  {
    var dbA, p := PutLocal(EMPTY_DB, a, e, 0), Pipe(0, a, b);
    var s1, s3 := Sending(p, Mail(OfferTo(EMPTY_DB, b), 1)), Sending(p, Mail(OfferTo(dbA, b), 3));
    Started(a, b);
    var run1 := Connected([], a, b, EMPTY_DB, [], []);
    var none, one: seq<seq<Mail>> := [], [[]];
    assert none + one == one;
    var run2 := Listed(run1, a, b, None, EMPTY_DB, [[]], [], 0);
    assert [] + [s1] == [s1];
    var run3 := PutAfter(run2, a, b, None, EMPTY_DB, [[]], [s1], e);
    run := Listed(run3, a, b, None, dbA, [[]], [s1], 0);
    assert [s1] + [s3] == [s1, s3];
    assert run[..1] == run1;
  }

  lemma SentSwapped(start: seq<Step>, a: Id, b: Id, dbA: Db, m1: Mail, m3: Mail) returns (run: seq<Step>)
    requires a != b && m1.msg.Offer? && m3.msg.Offer?
    requires var p := Pipe(0, a, b); Orderly(start, a, b, None, None, dbA, [[]], [Sending(p, m1), Sending(p, m3)])
    ensures |run| == |start| + 2 && run[..|start|] == start && Orderly(run, a, b, Some(m1), None, dbA, [[m3, m1]], [])
  {
    var p := Pipe(0, a, b);
    var s := [Sending(p, m1), Sending(p, m3)];
    run := Sent(start, a, b, None, dbA, [[]], s, 1, 0);
    assert RemoveAt(s, 1) == [Sending(p, m1)];
    assert [] + [m3] == [m3];
    assert [[]][0 := [m3]] == [[m3]];
    run := Sent(run, a, b, Some(m3), dbA, [[m3]], [Sending(p, m1)], 0, 0);
    assert RemoveAt([Sending(p, m1)], 0) == [];
    assert [m3] + [m1] == [m3, m1];
    assert [[m3]][0 := [m3, m1]] == [[m3, m1]];
  }

  lemma BothDelivered(start: seq<Step>, a: Id, b: Id, dbA: Db, m1: Mail, m3: Mail)
    returns (run: seq<Step>, s: seq<Sending>)
    requires a != b && m1.msg.Offer? && m3.msg.Offer? && Orderly(start, a, b, Some(m1), None, dbA, [[m3, m1]], [])
    ensures |run| == |start| + 2 && run[..|start|] == start
    ensures Orderly(run, a, b, Some(m1), Some(m1), dbA, [[]], s)
    ensures LastDelivered({a, b}, run[..|start| + 1], a, b) == Some(m3)
  {
    var first, s7 := Delivered(start, a, b, Some(m1), None, dbA, [[m3, m1]], [], 0);
    assert [[m3, m1]][0 := [m3, m1][1..]] == [[m1]];
    run, s := Delivered(first, a, b, Some(m1), Some(m3), dbA, [[m1]], s7, 0);
    assert [[m1]][0 := [m1][1..]] == [[]];
    assert run[..|start| + 1] == first;
  }

  /** One connection that stays up, a whole announcement listed, sent and delivered after
      the last change, nothing left on the way: and b does not list the new file. */
  lemma OvertakenOffer(a: Id, b: Id, e: Entry) returns (run: seq<Step>)
    requires a != b && Encodable(e.modTime)
    ensures var ids, net := {a, b}, Exec({a, b}, run);
            && AlwaysSingle(ids, run, a, b) && Kept(ids, run, a, b) && Arrived(net, a, b)
            && (exists t :: 0 <= t <= |run| && LastDelivered(ids, run[..t], a, b) == Some(Mail(OfferTo(PutLocal(EMPTY_DB, a, e, 0), b), 3)))
            && net.nodes.Keys == ids && net.nodes[a] == PutLocal(EMPTY_DB, a, e, 0)
            && !Current(net, a, b)
  {
    var dbA := PutLocal(EMPTY_DB, a, e, 0);
    var m1, m3 := Mail(OfferTo(EMPTY_DB, b), 1), Mail(OfferTo(dbA, b), 3);
    var run4 := ListedAndPut(a, b, e);
    var s;
    run, s := SwappedAndDelivered(run4, a, b, dbA, m1, m3);
    assert run[..1] == run4[..1];
    EndsStale(run, a, b, e, Some(m1), m1, [[]], s);
  }

  lemma SwappedAndDelivered(start: seq<Step>, a: Id, b: Id, dbA: Db, m1: Mail, m3: Mail)
    returns (run: seq<Step>, s: seq<Sending>)
    requires a != b && m1.msg.Offer? && m3.msg.Offer?
    requires var p := Pipe(0, a, b); Orderly(start, a, b, None, None, dbA, [[]], [Sending(p, m1), Sending(p, m3)])
    ensures |run| == |start| + 4 && run[..|start|] == start
    ensures Orderly(run, a, b, Some(m1), Some(m1), dbA, [[]], s)
    ensures LastDelivered({a, b}, run[..|start| + 3], a, b) == Some(m3)
  {
    var sent := SentSwapped(start, a, b, dbA, m1, m3);
    run, s := BothDelivered(sent, a, b, dbA, m1, m3);
    assert run[..|start|] == sent[..|start|];
  }

  // ---- two connections ----

  lemma TwoOpen(a: Id, b: Id) returns (run: seq<Step>)
    requires a != b
    ensures |run| == 2 && Orderly(run, a, b, None, None, EMPTY_DB, [[], []], [])
  {
    Started(a, b);
    var run1 := Connected([], a, b, EMPTY_DB, [], []);
    var none, one: seq<seq<Mail>> := [], [[]];
    assert none + one == one;
    run := Connected(run1, a, b, EMPTY_DB, one, []);
    assert one + one == [[], []];
  }

  /** List an offer and send it at once, on connection k. */
  lemma Announced(start: seq<Step>, a: Id, b: Id, sent: Option<Mail>, dbA: Db, qs: seq<seq<Mail>>, k: nat)
    returns (run: seq<Step>)
    requires a != b && Orderly(start, a, b, sent, None, dbA, qs, []) && k < |qs|
    ensures |run| == |start| + 2 && run[..|start|] == start
    ensures var m := Mail(OfferTo(dbA, b), |start|); Orderly(run, a, b, Some(m), None, dbA, qs[k := qs[k] + [m]], [])
  {
    var x := Sending(Pipe(k, a, b), Mail(OfferTo(dbA, b), |start|));
    var listed := Listed(start, a, b, sent, dbA, qs, [], k);
    assert [] + [x] == [x];
    run := Sent(listed, a, b, sent, dbA, qs, [x], 0, k);
    assert RemoveAt([x], 0) == [];
  }

  /** An offer on one connection, the file put, a new offer on the other. */
  lemma OnTwoConnections(start: seq<Step>, a: Id, b: Id, e: Entry) returns (run: seq<Step>)
    requires a != b && |start| == 2 && Orderly(start, a, b, None, None, EMPTY_DB, [[], []], [])
    ensures var dbA := PutLocal(EMPTY_DB, a, e, 0);
            var m2, m5 := Mail(OfferTo(EMPTY_DB, b), 2), Mail(OfferTo(dbA, b), 5);
            |run| == 7 && run[..2] == start && Orderly(run, a, b, Some(m5), None, dbA, [[m2], [m5]], [])
  {
    var dbA := PutLocal(EMPTY_DB, a, e, 0);
    var m2, m5 := Mail(OfferTo(EMPTY_DB, b), 2), Mail(OfferTo(dbA, b), 5);
    var first := Announced(start, a, b, None, EMPTY_DB, [[], []], 0);
    OneMore([[], []], 0, m2);
    var put := PutAfter(first, a, b, Some(m2), EMPTY_DB, [[m2], []], [], e);
    run := Announced(put, a, b, Some(m2), dbA, [[m2], []], 1);
    OneMore([[m2], []], 1, m5);
  }

  lemma OneMore(qs: seq<seq<Mail>>, k: nat, m: Mail)
    requires |qs| == 2 && k < 2 && qs[k] == []
    ensures qs[k := qs[k] + [m]] == if k == 0 then [[m], qs[1]] else [qs[0], [m]]
  {
    assert [] + [m] == [m];
  }

  /** Offers listed and sent in order, none lost, all arrived, but on two connections of
      the same pair: b does not list the new file. */
  lemma TwoConnectionsReorder(a: Id, b: Id, e: Entry) returns (run: seq<Step>)
    requires a != b && Encodable(e.modTime)
    ensures var ids, net := {a, b}, Exec({a, b}, run);
            && Kept(ids, run, a, b) && Arrived(net, a, b)
            && net.nodes.Keys == ids && net.nodes[a] == PutLocal(EMPTY_DB, a, e, 0)
            && LastSent(ids, run, a, b) == Some(Mail(OfferTo(net.nodes[a], b), 5))
            && !Current(net, a, b)
  {
    var dbA := PutLocal(EMPTY_DB, a, e, 0);
    var m2, m5 := Mail(OfferTo(EMPTY_DB, b), 2), Mail(OfferTo(dbA, b), 5);
    var run2 := TwoOpen(a, b);
    var run7 := OnTwoConnections(run2, a, b, e);
    var s;
    run, s := SecondFirst(run7, a, b, dbA, m2, m5);
    assert run[..2] == run7[..2];
    EndsStale(run, a, b, e, Some(m5), m2, [[], []], s);
  }

  /** Everything has arrived, and the last offer delivered lists an empty catalog. */
  lemma EndsStale(run: seq<Step>, a: Id, b: Id, e: Entry, sent: Option<Mail>, m: Mail, qs: seq<seq<Mail>>, s: seq<Sending>)
    requires a != b && Encodable(e.modTime) && m.at <= |run| && forall k :: 0 <= k < |qs| ==> qs[k] == []
    requires Orderly(run, a, b, sent, Some(m), PutLocal(EMPTY_DB, a, e, 0), qs, s)
    requires Orderly(run[..m.at], a, b, None, None, EMPTY_DB, qs, [])
    ensures var net := Exec({a, b}, run);
            && Kept({a, b}, run, a, b) && LastSent({a, b}, run, a, b) == sent && Arrived(net, a, b)
            && net.nodes.Keys == {a, b} && net.nodes[a] == PutLocal(EMPTY_DB, a, e, 0) && !Current(net, a, b)
  {
    AllArrived(run, a, b, sent, Some(m), PutLocal(EMPTY_DB, a, e, 0), qs, s);
    StaleMeansNotCurrent({a, b}, run, a, b, e);
  }

  /** The newer offer, on the second connection, is delivered first. */
  lemma SecondFirst(start: seq<Step>, a: Id, b: Id, dbA: Db, m: Mail, n: Mail) returns (run: seq<Step>, s: seq<Sending>)
    requires a != b && m.msg.Offer? && n.msg.Offer? && Orderly(start, a, b, Some(n), None, dbA, [[m], [n]], [])
    ensures |run| == |start| + 2 && run[..|start|] == start && Orderly(run, a, b, Some(n), Some(m), dbA, [[], []], s)
  {
    var first, s1 := Delivered(start, a, b, Some(n), None, dbA, [[m], [n]], [], 1);
    assert [[m], [n]][1 := [n][1..]] == [[m], []];
    run, s := Delivered(first, a, b, Some(n), Some(n), dbA, [[m], []], s1, 0);
    assert [[m], []][0 := [m][1..]] == [[], []];
  }
}
