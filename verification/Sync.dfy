/** When a receiver's view of a sender is current, over every run of the network. */
module Sync {
  import opened Basics
  import opened Bucket
  import opened Catalog
  import opened CatalogLaws
  import opened Convert
  import opened Exchange
  import Provenance

  // ---- the receiver holds the last delivered offer ----

  /** The step delivers an offer of a at b, on any connection. */
  predicate Delivers(net: Net, s: Step, a: Id, b: Id) {
    s.Deliver? && s.pipe.src == a && s.pipe.dst == b && Enabled(net, s) && Queue(net, s.pipe)[0].msg.Offer?
  }

  function LastDelivered(ids: set<Id>, run: seq<Step>, a: Id, b: Id): (m: Option<Mail>)
    ensures m.Some? ==> m.value.msg.Offer?
  {
    if run == [] then None
    else
      var init, last := run[..|run| - 1], run[|run| - 1];
      var net := Exec(ids, init);
      if Delivers(net, last, a, b) then Some(Queue(net, last.pipe)[0]) else LastDelivered(ids, init, a, b)
  }

  function Erase(e: Option<Entry>): Option<Entry> {
    if e.Some? then Some(e.value.(updatedAt := 0)) else None
  }

  /** What a receiver holds for a sender whose last delivered offer listed `files`. */
  function Image(files: seq<CatalogFile>, a: Id, f: Id): Option<Entry> {
    Erase(StampAt(LastListed(Accepted(files), f), a, 0))
  }

  /** Only delivering an offer of a changes what b holds under a. */
  lemma SeesStep(net: Net, s: Step, a: Id, b: Id, f: Id)
    requires b in net.nodes && a != b && Valid(net.nodes[b])
    requires Delivers(net, s, a, b) ==> BatchEncodable(Accepted(Queue(net, s.pipe)[0].msg.files))
    ensures b in Apply(net, s).nodes
    ensures Erase(Lookup(Apply(net, s).nodes[b], a, f))
         == if Delivers(net, s, a, b) then Image(Queue(net, s.pipe)[0].msg.files, a, f)
            else Erase(Lookup(net.nodes[b], a, f))
  {
    if Enabled(net, s) {
      match s
      case LocalPut(n, e, now) =>
        if n == b { PutLocalLookup(net.nodes[b], b, e, now, a, f); }
      case LocalDelete(n, g, now) =>
        if n == b { DeleteLocalLookup(net.nodes[b], b, g, now, a, f); }
      case Deliver(p, now) =>
        var m := Queue(net, p)[0].msg;
        if p.dst == b && m.Offer? {
          PutPeerLookup(net.nodes[b], p.src, Accepted(m.files), now, a, f);
        }
      case _ =>
    }
  }

  /** In every reachable state, what b holds under a is exactly the image of the last
      offer of a that was delivered at b. */
  lemma {:induction false} ReceiverHoldsLastDelivered(ids: set<Id>, run: seq<Step>, a: Id, b: Id, f: Id)
    requires a in ids && b in ids && a != b
    ensures b in Exec(ids, run).nodes
    ensures var m := LastDelivered(ids, run, a, b);
            Erase(Lookup(Exec(ids, run).nodes[b], a, f)) == if m.Some? then Image(m.value.msg.files, a, f) else None
  {
    if run != [] {
      var init, last := run[..|run| - 1], run[|run| - 1];
      var net, puts := Exec(ids, init), Provenance.Puts(ids, init);
      ReceiverHoldsLastDelivered(ids, init, a, b, f);
      Provenance.EveryEntryWasPut(ids, init);
      assert Provenance.NodeOk(puts, b, net.nodes[b]);
      if Delivers(net, last, a, b) {
        var m := Queue(net, last.pipe)[0];
        assert InFlight(net, last.pipe, m);
        Provenance.AcceptedOk(puts, m.msg.files);
      }
      SeesStep(net, last, a, b, f);
    }
  }

  // ---- every offer is the sender's list at the moment it was listed ----

  /** The offer was listed by the step at position m.at. */
  ghost predicate ListedThen(ids: set<Id>, run: seq<Step>, a: Id, b: Id, m: Mail) {
    && m.at < |run| && a in Exec(ids, run[..m.at]).nodes
    && m.msg == OfferTo(Exec(ids, run[..m.at]).nodes[a], b)
  }

  lemma ListedThenGrows(ids: set<Id>, run: seq<Step>, s: Step, a: Id, b: Id, m: Mail)
    requires ListedThen(ids, run, a, b, m)
    ensures ListedThen(ids, run + [s], a, b, m)
  {
    assert (run + [s])[..m.at] == run[..m.at];
  }

  lemma {:induction false} InFlightWasListed(ids: set<Id>, run: seq<Step>, p: Pipe, m: Mail)
    requires InFlight(Exec(ids, run), p, m) && m.msg.Offer?
    ensures ListedThen(ids, run, p.src, p.dst, m)
  {
    if run != [] {
      var init, last := run[..|run| - 1], run[|run| - 1];
      var net := Exec(ids, init);
      assert run == init + [last];
      FlightStep(net, last, p, m);
      ExecNodes(ids, init);
      if InFlight(net, p, m) {
        InFlightWasListed(ids, init, p, m);
        ListedThenGrows(ids, init, last, p.src, p.dst, m);
      } else {
        assert run[..m.at] == init;
      }
    }
  }

  lemma {:induction false} DeliveredWasListed(ids: set<Id>, run: seq<Step>, a: Id, b: Id)
    requires LastDelivered(ids, run, a, b).Some?
    ensures ListedThen(ids, run, a, b, LastDelivered(ids, run, a, b).value)
  {
    var init, last := run[..|run| - 1], run[|run| - 1];
    var net := Exec(ids, init);
    var m := LastDelivered(ids, run, a, b).value;
    assert run == init + [last];
    if Delivers(net, last, a, b) {
      InFlightWasListed(ids, init, last.pipe, m);
    } else {
      DeliveredWasListed(ids, init, a, b);
    }
    ListedThenGrows(ids, init, last, a, b, m);
  }

  // ---- exactly when the receiver is current ----

  /** a would offer file f to b. */
  ghost predicate Offered(db: Db, b: Id, f: Id) {
    exists o: Id :: o != b && LiveAt(db, o, f)
  }

  /** b lists under a exactly the files a would offer it now. */
  ghost predicate Current(net: Net, a: Id, b: Id)
    requires a in net.nodes && b in net.nodes
  {
    forall f: Id :: LiveAt(net.nodes[b], a, f) <==> Offered(net.nodes[a], b, f)
  }

  ghost predicate SameFiles(db: Db, db': Db, b: Id) {
    forall f: Id :: Offered(db, b, f) <==> Offered(db', b, f)
  }

  lemma ImageLive(dbA: Db, b: Id, a: Id, f: Id)
    requires Valid(dbA)
    ensures var e := Image(OfferTo(dbA, b).files, a, f);
            (e.Some? && !e.value.deleted) <==> Offered(dbA, b, f)
  {
    AcceptedOfSent(ForPeer(dbA, b));
    LastListedOfMap(ForPeer(dbA, b), f);
    ListedIffLive(dbA, b, f);
  }

  lemma NodeValid(ids: set<Id>, run: seq<Step>, n: Id)
    requires n in ids
    ensures n in Exec(ids, run).nodes && Valid(Exec(ids, run).nodes[n])
  {
    ExecNodes(ids, run);
    Provenance.EveryEntryWasPut(ids, run);
    assert Provenance.NodeOk(Provenance.Puts(ids, run), n, Exec(ids, run).nodes[n]);
  }

  lemma HeldWasOffered(ids: set<Id>, run: seq<Step>, a: Id, b: Id, f: Id)
    requires a in ids && b in ids && a != b
    ensures b in Exec(ids, run).nodes
    ensures var m := LastDelivered(ids, run, a, b);
            && (m.None? ==> !LiveAt(Exec(ids, run).nodes[b], a, f))
            && (m.Some? ==> ListedThen(ids, run, a, b, m.value)
                            && (LiveAt(Exec(ids, run).nodes[b], a, f) <==>
                                Offered(Exec(ids, run[..m.value.at]).nodes[a], b, f)))
  {
    var m := LastDelivered(ids, run, a, b);
    ReceiverHoldsLastDelivered(ids, run, a, b, f);
    if m.Some? {
      DeliveredWasListed(ids, run, a, b);
      NodeValid(ids, run[..m.value.at], a);
      ImageLive(Exec(ids, run[..m.value.at]).nodes[a], b, a, f);
    }
  }

  /** In every run, over any number of connections: b lists under a exactly the files a
      has for it now if and only if they are the files a had for it when it listed the
      offer that was delivered last. */
  lemma CurrentIffListedSame(ids: set<Id>, run: seq<Step>, a: Id, b: Id)
    requires a in ids && b in ids && a != b
    ensures Exec(ids, run).nodes.Keys == ids
    ensures var net, m := Exec(ids, run), LastDelivered(ids, run, a, b);
            && (m.None? ==> (Current(net, a, b) <==> forall f: Id :: !Offered(net.nodes[a], b, f)))
            && (m.Some? ==> ListedThen(ids, run, a, b, m.value)
                            && (Current(net, a, b) <==>
                                SameFiles(Exec(ids, run[..m.value.at]).nodes[a], net.nodes[a], b)))
  {
    ExecNodes(ids, run);
    var net, m := Exec(ids, run), LastDelivered(ids, run, a, b);
    HeldWasOffered(ids, run, a, b, a);
    forall f: Id
      ensures m.None? ==> !LiveAt(net.nodes[b], a, f)
      ensures m.Some? ==> (LiveAt(net.nodes[b], a, f) <==> Offered(Exec(ids, run[..m.value.at]).nodes[a], b, f))
    {
      HeldWasOffered(ids, run, a, b, f);
    }
  }

  // ---- order on a connection ----

  function LastOffer(q: seq<Mail>): Option<Mail> {
    if q == [] then None
    else if q[|q| - 1].msg.Offer? then Some(q[|q| - 1])
    else LastOffer(q[..|q| - 1])
  }

  lemma {:induction false} LastOfferPop(q: seq<Mail>)
    requires q != []
    ensures LastOffer(q) == if LastOffer(q[1..]).Some? then LastOffer(q[1..])
                            else if q[0].msg.Offer? then Some(q[0]) else None
  {
    var n := |q| - 1;
    if n > 0 {
      assert q[1..][|q[1..]| - 1] == q[n];
      if !q[n].msg.Offer? {
        LastOfferPop(q[..n]);
        assert q[..n][1..] == q[1..][..|q[1..]| - 1];
      }
    }
  }

  lemma LastOfferSnoc(q: seq<Mail>, m: Mail)
    ensures LastOffer(q + [m]) == if m.msg.Offer? then Some(m) else LastOffer(q)
  {
    assert (q + [m])[..|q|] == q;
  }

  /** The step puts an offer of a for b on an open pipe. */
  predicate Sends(net: Net, s: Step, a: Id, b: Id) {
    && s.Send? && Arrives(net, s.i, s.ok)
    && net.sending[s.i].pipe.src == a && net.sending[s.i].pipe.dst == b && net.sending[s.i].mail.msg.Offer?
  }

  function LastSent(ids: set<Id>, run: seq<Step>, a: Id, b: Id): (m: Option<Mail>)
    ensures m.Some? ==> m.value.msg.Offer?
  {
    if run == [] then None
    else
      var init, last := run[..|run| - 1], run[|run| - 1];
      var net := Exec(ids, init);
      if Sends(net, last, a, b) then Some(net.sending[last.i].mail) else LastSent(ids, init, a, b)
  }

  /** At most one connection from a to b is open. */
  ghost predicate Single(net: Net, a: Id, b: Id) {
    forall k, l :: Pipe(k, a, b) in net.pipes && Pipe(l, a, b) in net.pipes ==> k == l
  }

  ghost predicate AlwaysSingle(ids: set<Id>, run: seq<Step>, a: Id, b: Id) {
    Single(Exec(ids, run), a, b) && (run != [] ==> AlwaysSingle(ids, run[..|run| - 1], a, b))
  }

  /** The step closes a connection with an offer of a for b still on it. */
  predicate Loses(net: Net, s: Step, a: Id, b: Id) {
    && s.Disconnect? && Enabled(net, s)
    && ((s.pipe.src == a && s.pipe.dst == b) || (s.pipe.src == b && s.pipe.dst == a))
    && LastOffer(Queue(net, Pipe(s.pipe.conn, a, b))).Some?
  }

  /** No offer was lost since the last one was sent; earlier ones may have been. */
  predicate Kept(ids: set<Id>, run: seq<Step>, a: Id, b: Id) {
    run == [] ||
    var init, last := run[..|run| - 1], run[|run| - 1];
    var net := Exec(ids, init);
    Sends(net, last, a, b) || (Kept(ids, init, a, b) && !Loses(net, last, a, b))
  }

  /** The last offer sent is the last one on the open pipe, or else the last one delivered. */
  ghost predicate InOrder(ids: set<Id>, run: seq<Step>, a: Id, b: Id) {
    var net := Exec(ids, run);
    && (forall k :: LastOffer(Queue(net, Pipe(k, a, b))).Some? ==>
          LastOffer(Queue(net, Pipe(k, a, b))) == LastSent(ids, run, a, b))
    && (Arrived(net, a, b) ==> LastSent(ids, run, a, b) == LastDelivered(ids, run, a, b))
  }

  /** No offer of a for b is on any pipe. */
  ghost predicate Arrived(net: Net, a: Id, b: Id) {
    forall k :: LastOffer(Queue(net, Pipe(k, a, b))).None?
  }

  lemma InOrderSend(ids: set<Id>, run: seq<Step>, a: Id, b: Id)
    requires run != [] && Sends(Exec(ids, run[..|run| - 1]), run[|run| - 1], a, b)
    requires Single(Exec(ids, run[..|run| - 1]), a, b)
    ensures InOrder(ids, run, a, b)
  {
    var net, s := Exec(ids, run[..|run| - 1]), run[|run| - 1];
    var x := net.sending[s.i];
    LastOfferSnoc(net.pipes[x.pipe], x.mail);
    assert x.pipe == Pipe(x.pipe.conn, a, b);
    assert LastOffer(Queue(Exec(ids, run), Pipe(x.pipe.conn, a, b))) == Some(x.mail);
  }

  lemma InOrderDeliver(ids: set<Id>, run: seq<Step>, a: Id, b: Id)
    requires run != [] && run[|run| - 1].Deliver? && Enabled(Exec(ids, run[..|run| - 1]), run[|run| - 1])
    requires run[|run| - 1].pipe.src == a && run[|run| - 1].pipe.dst == b
    requires InOrder(ids, run[..|run| - 1], a, b) && Single(Exec(ids, run[..|run| - 1]), a, b)
    ensures InOrder(ids, run, a, b)
  {
    var init, s := run[..|run| - 1], run[|run| - 1];
    var net, net' := Exec(ids, init), Exec(ids, run);
    var p := s.pipe;
    assert p == Pipe(p.conn, a, b);
    LastOfferPop(Queue(net, p));
    assert forall k :: k != p.conn ==> Queue(net', Pipe(k, a, b)) == Queue(net, Pipe(k, a, b)) == [];
    assert LastOffer(Queue(net', Pipe(p.conn, a, b))) == LastOffer(Queue(net, p)[1..]);
  }

  /** Other steps leave the offers on the pipes from a to b as they are. */
  lemma SameOffers(net: Net, s: Step, a: Id, b: Id, k: nat)
    requires !Sends(net, s, a, b) && !Loses(net, s, a, b)
    requires s.Deliver? ==> s.pipe.src != a || s.pipe.dst != b || !Enabled(net, s)
    ensures LastOffer(Queue(Apply(net, s), Pipe(k, a, b))) == LastOffer(Queue(net, Pipe(k, a, b)))
            || (s.Connect? && LastOffer(Queue(Apply(net, s), Pipe(k, a, b))).None? && k == net.next)
  {
    if Enabled(net, s) {
      match s
      case Send(i, ok) =>
        if Arrives(net, i, ok) && net.sending[i].pipe == Pipe(k, a, b) {
          LastOfferSnoc(Queue(net, Pipe(k, a, b)), net.sending[i].mail);
        }
      case _ =>
    }
  }

  /** Numbers of connections not opened yet have no pipe. */
  lemma {:induction false} PipesAreNumbered(ids: set<Id>, run: seq<Step>, p: Pipe)
    requires p in Exec(ids, run).pipes
    ensures p.conn < Exec(ids, run).next
  {
    var net := Exec(ids, run[..|run| - 1]);
    if p in net.pipes {
      PipesAreNumbered(ids, run[..|run| - 1], p);
    }
  }

  lemma InOrderOther(ids: set<Id>, run: seq<Step>, a: Id, b: Id)
    requires run != [] && InOrder(ids, run[..|run| - 1], a, b)
    requires var net, s := Exec(ids, run[..|run| - 1]), run[|run| - 1];
             && !Sends(net, s, a, b) && !Loses(net, s, a, b)
             && (s.Deliver? ==> s.pipe.src != a || s.pipe.dst != b || !Enabled(net, s))
    ensures InOrder(ids, run, a, b)
  {
    var init, s := run[..|run| - 1], run[|run| - 1];
    var net, net' := Exec(ids, init), Exec(ids, run);
    forall k
      ensures LastOffer(Queue(net', Pipe(k, a, b))) == LastOffer(Queue(net, Pipe(k, a, b)))
    {
      SameOffers(net, s, a, b, k);
      if Pipe(k, a, b) in net.pipes {
        PipesAreNumbered(ids, init, Pipe(k, a, b));
      }
    }
    assert LastSent(ids, run, a, b) == LastSent(ids, init, a, b);
    assert LastDelivered(ids, run, a, b) == LastDelivered(ids, init, a, b);
  }

  /** While one connection is open at a time and no offer was lost since the last one,
      offers arrive in the order they are sent. */
  lemma {:induction false} DeliveryIsInOrder(ids: set<Id>, run: seq<Step>, a: Id, b: Id)
    requires AlwaysSingle(ids, run, a, b) && Kept(ids, run, a, b)
    ensures InOrder(ids, run, a, b)
  {
    if run != [] {
      var init, s := run[..|run| - 1], run[|run| - 1];
      var net := Exec(ids, init);
      if Sends(net, s, a, b) {
        InOrderSend(ids, run, a, b);
      } else {
        DeliveryIsInOrder(ids, init, a, b);
        if s.Deliver? && Enabled(net, s) && s.pipe.src == a && s.pipe.dst == b {
          InOrderDeliver(ids, run, a, b);
        } else {
          InOrderOther(ids, run, a, b);
        }
      }
    }
  }

  /** The promise of the shared folder, exactly: once the last offer sent has arrived, b
      lists under a the files a has for it if and only if they are the files a had for
      it when that offer was listed. Offers listed later but sent earlier do not help. */
  lemma QuietMeansSynced(ids: set<Id>, run: seq<Step>, a: Id, b: Id)
    requires a in ids && b in ids && a != b
    requires AlwaysSingle(ids, run, a, b) && Kept(ids, run, a, b) && Arrived(Exec(ids, run), a, b)
    requires LastSent(ids, run, a, b).Some?
    ensures Exec(ids, run).nodes.Keys == ids
    ensures var net, m := Exec(ids, run), LastSent(ids, run, a, b).value;
            ListedThen(ids, run, a, b, m)
            && (Current(net, a, b) <==> SameFiles(Exec(ids, run[..m.at]).nodes[a], net.nodes[a], b))
  {
    DeliveryIsInOrder(ids, run, a, b);
    CurrentIffListedSame(ids, run, a, b);
  }

  /** If a's files for b changed for the last time with step c, and were different
      before, then b is current if and only if no offer listed up to then was sent last. */
  lemma SyncedIffNotOvertaken(ids: set<Id>, run: seq<Step>, a: Id, b: Id, c: nat)
    requires a in ids && b in ids && a != b
    requires AlwaysSingle(ids, run, a, b) && Kept(ids, run, a, b) && Arrived(Exec(ids, run), a, b)
    requires LastSent(ids, run, a, b).Some?
    requires forall t :: 0 <= t <= |run| ==>
               && a in Exec(ids, run[..t]).nodes && a in Exec(ids, run).nodes
               && (t > c <==> SameFiles(Exec(ids, run[..t]).nodes[a], Exec(ids, run).nodes[a], b))
    ensures Exec(ids, run).nodes.Keys == ids
    ensures Current(Exec(ids, run), a, b) <==> LastSent(ids, run, a, b).value.at > c
  {
    QuietMeansSynced(ids, run, a, b);
  }

  lemma {:induction false} UnprefixedIsOthers(rows: seq<Row<Entry>>, o: Id)
    requires KeysMatch(rows)
    ensures Filter(Map(rows, RowVal()), NotOwnedBy(o)) == Map(Filter(rows, LacksPrefix(o)), RowVal())
  {
    if rows != [] {
      assert rows[0] in rows;
      KeyPrefix(o, rows[0].val.owner, rows[0].val.fileID);
      assert KeysMatch(rows[1..]);
      UnprefixedIsOthers(rows[1..], o);
      assert Map(rows, RowVal())[1..] == Map(rows[1..], RowVal());
    }
  }

  lemma ForPeerByRows(db: Db, o: Id)
    requires Valid(db)
    ensures ForPeer(db, o) == Filter(Map(Filter(db.entries, LacksPrefix(o)), RowVal()), Live())
  {
    var vals := Map(db.entries, RowVal());
    var both := (e: Entry) => !e.deleted && e.owner != o;
    FilterTwice(vals, Live(), NotOwnedBy(o), both);
    FilterTwice(vals, NotOwnedBy(o), Live(), both);
    UnprefixedIsOthers(db.entries, o);
  }

  lemma OtherRow(db: Db, o: Id, r: Row<Entry>)
    requires Valid(db)
    ensures r in Filter(db.entries, LacksPrefix(o)) <==>
              r.val.owner != o && r.key == CompositeKey(r.val.owner, r.val.fileID)
              && Lookup(db, r.val.owner, r.val.fileID) == Some(r.val)
  {
    var rows := Filter(db.entries, LacksPrefix(o));
    GetIsMembership(db.entries, CompositeKey(r.val.owner, r.val.fileID));
    KeyPrefix(o, r.val.owner, r.val.fileID);
    if r in rows {
      var i :| 0 <= i < |rows| && rows[i] == r;
      var j := FilterOrigin(db.entries, LacksPrefix<Entry>(o), i);
      assert r in db.entries;
    }
    if r in db.entries && r.val.owner != o {
      var j :| 0 <= j < |db.entries| && db.entries[j] == r;
      var i := FilterImage(db.entries, LacksPrefix<Entry>(o), j);
    }
  }

  /** The list for a peer does not depend on what is stored under that peer. */
  lemma ForPeerIgnoresPeer(db: Db, db': Db, o: Id)
    requires Valid(db) && Valid(db')
    requires forall p: Id, f: Id :: p != o ==> Lookup(db, p, f) == Lookup(db', p, f)
    ensures ForPeer(db, o) == ForPeer(db', o)
  {
    ForPeerByRows(db, o);
    ForPeerByRows(db', o);
    var rows, rows' := Filter(db.entries, LacksPrefix(o)), Filter(db'.entries, LacksPrefix(o));
    FilterSorted(db.entries, LacksPrefix(o));
    FilterSorted(db'.entries, LacksPrefix(o));
    forall r: Row<Entry>
      ensures r in rows <==> r in rows'
    {
      OtherRow(db, o, r);
      OtherRow(db', o, r);
    }
    Extensional(rows, rows');
  }

  // ---- a list stays current while its node does not change ----

  /** The step may change what a lists for b: a local change at a, or a third node's catalog. */
  predicate Touches(s: Step, a: Id, b: Id) {
    || (s.LocalPut? && s.node == a)
    || (s.LocalDelete? && s.node == a)
    || (s.Deliver? && s.pipe.dst == a && s.pipe.src != b)
  }

  predicate UntouchedSince(run: seq<Step>, t: nat, a: Id, b: Id) {
    forall i :: t <= i < |run| ==> !Touches(run[i], a, b)
  }

  lemma SameElsewhere(db: Db, db': Db, b: Id)
    requires forall p: Id, f: Id :: p != b ==> Lookup(db, p, f) == Lookup(db', p, f)
    ensures SameFiles(db, db', b)
  {
    forall f: Id
      ensures Offered(db, b, f) <==> Offered(db', b, f)
    {
      if o: Id :| o != b && LiveAt(db, o, f) {
        assert Lookup(db, o, f) == Lookup(db', o, f) && LiveAt(db', o, f);
      }
      if o: Id :| o != b && LiveAt(db', o, f) {
        assert Lookup(db, o, f) == Lookup(db', o, f) && LiveAt(db, o, f);
      }
    }
  }

  /** Taking in b's catalog does not change what a would offer to b. */
  lemma PeerKeepsOffer(db: Db, b: Id, batch: seq<Entry>, now: int)
    requires Valid(db)
    ensures var after := PutPeerEntries(db, b, batch, now); OfferTo(after, b) == OfferTo(db, b) && SameFiles(db, after, b)
  {
    var after := PutPeerEntries(db, b, batch, now);
    forall p: Id, f: Id | p != b
      ensures Lookup(db, p, f) == Lookup(after, p, f)
    {
      PutPeerLookup(db, b, batch, now, p, f);
    }
    PutPeerLookup(db, b, batch, now, b, b);
    ForPeerIgnoresPeer(db, after, b);
    SameElsewhere(db, after, b);
  }

  lemma SameNode(net: Net, s: Step, a: Id, b: Id)
    requires a in net.nodes && !Touches(s, a, b)
    requires s.Deliver? && Enabled(net, s) ==> s.pipe.dst != a || Queue(net, s.pipe)[0].msg.Ack?
    ensures a in Apply(net, s).nodes && Apply(net, s).nodes[a] == net.nodes[a]
  {
  }

  lemma StepKeepsOffer(net: Net, s: Step, a: Id, b: Id)
    requires a in net.nodes && Valid(net.nodes[a]) && !Touches(s, a, b)
    ensures a in Apply(net, s).nodes && OfferTo(Apply(net, s).nodes[a], b) == OfferTo(net.nodes[a], b)
    ensures SameFiles(net.nodes[a], Apply(net, s).nodes[a], b)
  {
    if s.Deliver? && Enabled(net, s) && s.pipe.dst == a && Queue(net, s.pipe)[0].msg.Offer? {
      PeerKeepsOffer(net.nodes[a], b, Accepted(Queue(net, s.pipe)[0].msg.files), s.now);
    } else {
      SameNode(net, s, a, b);
    }
  }

  lemma {:induction false} UntouchedKeepsOffer(ids: set<Id>, run: seq<Step>, t: nat, a: Id, b: Id)
    requires a in ids && a != b && t <= |run| && UntouchedSince(run, t, a, b)
    ensures a in Exec(ids, run).nodes && a in Exec(ids, run[..t]).nodes
    ensures OfferTo(Exec(ids, run).nodes[a], b) == OfferTo(Exec(ids, run[..t]).nodes[a], b)
    ensures SameFiles(Exec(ids, run[..t]).nodes[a], Exec(ids, run).nodes[a], b)
  {
    NodeValid(ids, run, a);
    if t == |run| {
      assert run[..t] == run;
    } else {
      var init := run[..|run| - 1];
      UntouchedKeepsOffer(ids, init, t, a, b);
      assert init[..t] == run[..t];
      NodeValid(ids, init, a);
      StepKeepsOffer(Exec(ids, init), run[|run| - 1], a, b);
    }
  }

  /** When the last offer sent was listed after a's last change and has arrived, b is
      current. */
  lemma AnnouncedMeansSynced(ids: set<Id>, run: seq<Step>, a: Id, b: Id)
    requires a in ids && b in ids && a != b
    requires AlwaysSingle(ids, run, a, b) && Kept(ids, run, a, b) && Arrived(Exec(ids, run), a, b)
    requires LastSent(ids, run, a, b).Some? && UntouchedSince(run, LastSent(ids, run, a, b).value.at, a, b)
    ensures Exec(ids, run).nodes.Keys == ids && Current(Exec(ids, run), a, b)
  {
    QuietMeansSynced(ids, run, a, b);
    UntouchedKeepsOffer(ids, run, LastSent(ids, run, a, b).value.at, a, b);
  }

  /** Between two nodes a offers exactly its own live files. */
  lemma TwoNodesOffer(a: Id, b: Id, run: seq<Step>, f: Id)
    requires a != b
    ensures Exec({a, b}, run).nodes.Keys == {a, b}
    ensures Offered(Exec({a, b}, run).nodes[a], b, f) <==> LiveAt(Exec({a, b}, run).nodes[a], a, f)
  {
    Provenance.TwoNodesNoEcho(a, b, run);
    var net := Exec({a, b}, run);
    if o: Id :| o != b && LiveAt(net.nodes[a], o, f) {
      assert o == a;
    }
  }

  /** Between two nodes: b lists under a exactly a's own live files if and only if a had
      the same ones when the last offer sent was listed. */
  lemma TwoNodesSynced(a: Id, b: Id, run: seq<Step>)
    requires a != b && AlwaysSingle({a, b}, run, a, b) && Kept({a, b}, run, a, b)
    requires Arrived(Exec({a, b}, run), a, b) && LastSent({a, b}, run, a, b).Some?
    ensures var ids, net, m := {a, b}, Exec({a, b}, run), LastSent({a, b}, run, a, b).value;
            && net.nodes.Keys == ids && ListedThen(ids, run, a, b, m)
            && ((forall f: Id :: LiveAt(net.nodes[b], a, f) <==> LiveAt(net.nodes[a], a, f)) <==>
                (forall f: Id :: LiveAt(Exec(ids, run[..m.at]).nodes[a], a, f) <==> LiveAt(net.nodes[a], a, f)))
  {
    var ids, net, m := {a, b}, Exec({a, b}, run), LastSent({a, b}, run, a, b).value;
    QuietMeansSynced(ids, run, a, b);
    forall f: Id
      ensures Offered(net.nodes[a], b, f) <==> LiveAt(net.nodes[a], a, f)
      ensures Offered(Exec(ids, run[..m.at]).nodes[a], b, f) <==> LiveAt(Exec(ids, run[..m.at]).nodes[a], a, f)
    {
      TwoNodesOffer(a, b, run, f);
      TwoNodesOffer(a, b, run[..m.at], f);
    }
  }
}
