/** Where every stored and every travelling catalog entry comes from, in every run. */
module Provenance {
  import opened Basics
  import opened Catalog
  import opened CatalogLaws
  import opened Convert
  import opened Exchange

  /** What a file keeps over any number of hops. */
  datatype Fact = Fact(fileID: Bytes, name: string, size: int, modTimeUnix: int)

  function FactOf(e: Entry): Fact { Fact(e.fileID, e.name, e.size, Unix(e.modTime)) }
  function FileFact(f: CatalogFile): Fact { Fact(f.fileId, f.name, f.size, f.modTimeUnix) }

  /** The local puts of a run, each with its node. */
  function Puts(ids: set<Id>, run: seq<Step>): set<(Id, Fact)> {
    if run == [] then {}
    else
      var last := run[|run| - 1];
      Puts(ids, run[..|run| - 1]) + NewPuts(ids, last)
  }

  function NewPuts(ids: set<Id>, s: Step): set<(Id, Fact)> {
    if s.LocalPut? && s.node in ids && Encodable(s.entry.modTime) then {(s.node, FactOf(s.entry))} else {}
  }

  ghost predicate PutSomewhere(puts: set<(Id, Fact)>, f: Fact) {
    exists m: Id :: (m, f) in puts
  }

  /** An entry stored at node n under owner o. */
  ghost predicate EntryOk(puts: set<(Id, Fact)>, n: Id, o: Id, e: Entry) {
    && Encodable(e.modTime)
    && PutSomewhere(puts, FactOf(e))
    && (o == n ==> (n, FactOf(e)) in puts)
  }

  ghost predicate NodeOk(puts: set<(Id, Fact)>, n: Id, db: Db) {
    && Valid(db)
    && forall o: Id, f: Id :: Lookup(db, o, f).Some? ==> EntryOk(puts, n, o, Lookup(db, o, f).value)
  }

  ghost predicate FileOk(puts: set<(Id, Fact)>, f: CatalogFile) {
    WellFormed(f) && Encodable(FromUnix(f.modTimeUnix)) && PutSomewhere(puts, FileFact(f))
  }

  ghost predicate MsgOk(puts: set<(Id, Fact)>, m: Msg) {
    m.Offer? ==> forall i :: 0 <= i < |m.files| ==> FileOk(puts, m.files[i])
  }

  ghost predicate Inv(puts: set<(Id, Fact)>, net: Net) {
    && (forall n :: n in net.nodes ==> NodeOk(puts, n, net.nodes[n]))
    && (forall p: Pipe, m: Mail :: InFlight(net, p, m) ==> MsgOk(puts, m.msg))
  }

  lemma NodeOkGrows(puts: set<(Id, Fact)>, more: set<(Id, Fact)>, n: Id, db: Db)
    requires NodeOk(puts, n, db) && puts <= more
    ensures NodeOk(more, n, db)
  {
    forall o: Id, f: Id | Lookup(db, o, f).Some?
      ensures EntryOk(more, n, o, Lookup(db, o, f).value)
    {
      assert EntryOk(puts, n, o, Lookup(db, o, f).value);
    }
  }

  lemma MsgOkGrows(puts: set<(Id, Fact)>, more: set<(Id, Fact)>, m: Msg)
    requires MsgOk(puts, m) && puts <= more
    ensures MsgOk(more, m)
  {
    if m.Offer? {
      forall i | 0 <= i < |m.files|
        ensures FileOk(more, m.files[i])
      {
        assert FileOk(puts, m.files[i]);
      }
    }
  }

  lemma InvGrows(puts: set<(Id, Fact)>, more: set<(Id, Fact)>, net: Net)
    requires Inv(puts, net) && puts <= more
    ensures Inv(more, net)
  {
    forall n | n in net.nodes
      ensures NodeOk(more, n, net.nodes[n])
    {
      NodeOkGrows(puts, more, n, net.nodes[n]);
    }
    forall p: Pipe, m: Mail | InFlight(net, p, m)
      ensures MsgOk(more, m.msg)
    {
      MsgOkGrows(puts, more, m.msg);
    }
  }

  lemma PutLocalOk(puts: set<(Id, Fact)>, n: Id, db: Db, e: Entry, now: int)
    requires NodeOk(puts, n, db)
    requires Encodable(e.modTime) ==> (n, FactOf(e)) in puts
    ensures NodeOk(puts, n, PutLocal(db, n, e, now))
  {
    var after := PutLocal(db, n, e, now);
    PutLocalLookup(db, n, e, now, n, n);
    forall o: Id, f: Id | Lookup(after, o, f).Some?
      ensures EntryOk(puts, n, o, Lookup(after, o, f).value)
    {
      PutLocalLookup(db, n, e, now, o, f);
    }
  }

  lemma DeleteLocalOk(puts: set<(Id, Fact)>, n: Id, db: Db, g: Id, now: int)
    requires NodeOk(puts, n, db)
    ensures NodeOk(puts, n, DeleteLocal(db, n, g, now))
  {
    var after := DeleteLocal(db, n, g, now);
    DeleteLocalLookup(db, n, g, now, n, n);
    forall o: Id, f: Id | Lookup(after, o, f).Some?
      ensures EntryOk(puts, n, o, Lookup(after, o, f).value)
    {
      DeleteLocalLookup(db, n, g, now, o, f);
      assert EntryOk(puts, n, o, Lookup(db, o, f).value);
    }
  }

  lemma OfferOk(puts: set<(Id, Fact)>, n: Id, db: Db, dst: Id)
    requires NodeOk(puts, n, db)
    ensures MsgOk(puts, OfferTo(db, dst))
  {
    var es := ForPeer(db, dst);
    forall i | 0 <= i < |es|
      ensures FileOk(puts, EntryToProto(es[i]))
    {
      ForPeerMember(db, dst, i);
      TruncateTime(es[i].modTime);
      assert EntryOk(puts, n, es[i].owner, es[i]);
    }
  }

  /** Every accepted entry is one of the offered files. */
  lemma {:induction false} AcceptedOk(puts: set<(Id, Fact)>, files: seq<CatalogFile>)
    requires forall i :: 0 <= i < |files| ==> FileOk(puts, files[i])
    ensures forall i :: 0 <= i < |Accepted(files)| ==>
              Encodable(Accepted(files)[i].modTime) && PutSomewhere(puts, FactOf(Accepted(files)[i]))
  {
    if files != [] {
      var n := |files| - 1;
      AcceptedOk(puts, files[..n]);
      assert FileOk(puts, files[n]);
      assert FactOf(ProtoToEntry(files[n]).value) == FileFact(files[n]);
    }
  }

  lemma HandleOfferOk(puts: set<(Id, Fact)>, n: Id, db: Db, src: Id, files: seq<CatalogFile>, now: int)
    requires NodeOk(puts, n, db) && src != n && MsgOk(puts, Offer(files))
    ensures NodeOk(puts, n, HandleOffer(db, src, files, now).0)
  {
    var batch := Accepted(files);
    var after := HandleOffer(db, src, files, now).0;
    assert MsgOk(puts, Offer(files));
    AcceptedOk(puts, files);
    PutPeerLookup(db, src, batch, now, n, n);
    forall o: Id, f: Id | Lookup(after, o, f).Some?
      ensures EntryOk(puts, n, o, Lookup(after, o, f).value)
    {
      PutPeerLookup(db, src, batch, now, o, f);
      if o == src {
        LastListedIsLast(batch, f);
      } else {
        assert EntryOk(puts, n, o, Lookup(db, o, f).value);
      }
    }
  }

  lemma ReceiveOk(puts: set<(Id, Fact)>, net: Net, p: Pipe, now: int)
    requires Inv(puts, net) && Enabled(net, Deliver(p, now))
    ensures NodeOk(puts, p.dst, Receive(net, p, now).nodes[p.dst])
  {
    var m := Queue(net, p)[0];
    assert InFlight(net, p, m);
    if m.msg.Offer? {
      HandleOfferOk(puts, p.dst, net.nodes[p.dst], p.src, m.msg.files, now);
    }
  }

  lemma NodesOk(puts: set<(Id, Fact)>, net: Net, s: Step, n: Id)
    requires Inv(puts, net) && n in net.nodes
    requires NewPuts(net.nodes.Keys, s) <= puts
    ensures NodeOk(puts, n, Apply(net, s).nodes[n])
  {
    if Enabled(net, s) {
      match s
      case LocalPut(m, e, now) =>
        assert Encodable(e.modTime) ==> (m, FactOf(e)) in NewPuts(net.nodes.Keys, s);
        PutLocalOk(puts, m, net.nodes[m], e, now);
      case LocalDelete(m, f, now) =>
        DeleteLocalOk(puts, m, net.nodes[m], f, now);
      case Deliver(p, now) =>
        ReceiveOk(puts, net, p, now);
      case _ =>
    }
  }

  lemma ApplyOk(puts: set<(Id, Fact)>, net: Net, s: Step)
    requires Inv(puts, net)
    requires NewPuts(net.nodes.Keys, s) <= puts
    ensures Inv(puts, Apply(net, s))
  {
    var after := Apply(net, s);
    ApplyNodes(net, s);
    forall n | n in after.nodes
      ensures NodeOk(puts, n, after.nodes[n])
    {
      NodesOk(puts, net, s, n);
    }
    forall p: Pipe, m: Mail | InFlight(after, p, m)
      ensures MsgOk(puts, m.msg)
    {
      FlightStep(net, s, p, m);
      if s == ListOffer(p) && Enabled(net, s) {
        OfferOk(puts, p.src, net.nodes[p.src], p.dst);
      }
    }
  }

  /** Whole-run provenance: every entry stored anywhere, and every file in flight,
      agrees on file, name, size and time in whole seconds with some earlier local put
      at some node; an entry a node holds under its own name was put there. */
  lemma {:induction false} EveryEntryWasPut(ids: set<Id>, run: seq<Step>)
    ensures Inv(Puts(ids, run), Exec(ids, run))
  {
    if run == [] {
      forall n: Id, o: Id, f: Id | n in ids
        ensures Lookup(EMPTY_DB, o, f) == None
      {
      }
    } else {
      var init, last := run[..|run| - 1], run[|run| - 1];
      EveryEntryWasPut(ids, init);
      ExecNodes(ids, init);
      InvGrows(Puts(ids, init), Puts(ids, run), Exec(ids, init));
      ApplyOk(Puts(ids, run), Exec(ids, init), last);
    }
  }

  // ---- two nodes: nothing is relayed ----

  /** In a network of two, what a holds under b was put at b, and so was every file
      travelling from b. */
  ghost predicate NoRelay(puts: set<(Id, Fact)>, net: Net, a: Id, b: Id)
    requires a in net.nodes
  {
    && (forall o: Id, f: Id :: Lookup(net.nodes[a], o, f).Some? ==>
          (o == a || o == b) && (o, FactOf(Lookup(net.nodes[a], o, f).value)) in puts)
    && (forall k: nat, m: Mail :: InFlight(net, Pipe(k, b, a), m) ==> FilesPutAt(puts, b, m.msg))
  }

  ghost predicate FilesPutAt(puts: set<(Id, Fact)>, b: Id, m: Msg) {
    m.Offer? ==> forall j :: 0 <= j < |m.files| ==> (b, FileFact(m.files[j])) in puts
  }

  lemma OwnOffer(puts: set<(Id, Fact)>, a: Id, b: Id, db: Db)
    requires Valid(db)
    requires forall o: Id, f: Id :: Lookup(db, o, f).Some? ==>
               (o == b || o == a) && (o, FactOf(Lookup(db, o, f).value)) in puts
    ensures FilesPutAt(puts, b, OfferTo(db, a))
  {
    var es := ForPeer(db, a);
    forall j | 0 <= j < |es|
      ensures (b, FileFact(EntryToProto(es[j]))) in puts
    {
      ForPeerMember(db, a, j);
    }
  }

  lemma {:induction false} AcceptedFacts(puts: set<(Id, Fact)>, b: Id, files: seq<CatalogFile>)
    requires forall j :: 0 <= j < |files| ==> (b, FileFact(files[j])) in puts
    ensures forall j :: 0 <= j < |Accepted(files)| ==> (b, FactOf(Accepted(files)[j])) in puts
  {
    if files != [] {
      var n := |files| - 1;
      AcceptedFacts(puts, b, files[..n]);
      if WellFormed(files[n]) {
        TruncateTime(FromUnix(files[n].modTimeUnix));
        assert FactOf(ProtoToEntry(files[n]).value) == FileFact(files[n]);
      }
    }
  }

  /** What a holds after a step was held before, arrived from b or was put at a. */
  lemma NoRelayNode(puts: set<(Id, Fact)>, net: Net, a: Id, b: Id, s: Step, o: Id, f: Id)
    requires net.nodes.Keys == {a, b} && a != b && Valid(net.nodes[a])
    requires NewPuts(net.nodes.Keys, s) <= puts && NoRelay(puts, net, a, b)
    requires Lookup(Apply(net, s).nodes[a], o, f).Some?
    ensures (o == a || o == b) && (o, FactOf(Lookup(Apply(net, s).nodes[a], o, f).value)) in puts
  {
    if Enabled(net, s) {
      match s
      case LocalPut(n, e, now) =>
        if n == a {
          PutLocalLookup(net.nodes[a], a, e, now, o, f);
          assert Encodable(e.modTime) ==> (a, FactOf(e)) in NewPuts(net.nodes.Keys, s);
        }
      case LocalDelete(n, g, now) =>
        if n == a { DeleteLocalLookup(net.nodes[a], a, g, now, o, f); }
      case Deliver(p, now) =>
        if p.dst == a { NoRelayReceive(puts, net, a, b, p, now, o, f); }
      case _ =>
    }
  }

  lemma NoRelayReceive(puts: set<(Id, Fact)>, net: Net, a: Id, b: Id, p: Pipe, now: int, o: Id, f: Id)
    requires net.nodes.Keys == {a, b} && a != b && Valid(net.nodes[a])
    requires NoRelay(puts, net, a, b) && p.dst == a && Enabled(net, Deliver(p, now))
    requires Lookup(Receive(net, p, now).nodes[a], o, f).Some?
    ensures (o == a || o == b) && (o, FactOf(Lookup(Receive(net, p, now).nodes[a], o, f).value)) in puts
  {
    var m := Queue(net, p)[0];
    assert p == Pipe(p.conn, b, a) && InFlight(net, Pipe(p.conn, b, a), m);
    if m.msg.Offer? {
      var batch := Accepted(m.msg.files);
      AcceptedFacts(puts, b, m.msg.files);
      PutPeerLookup(net.nodes[a], b, batch, now, o, f);
      if o == b {
        LastListedIsLast(batch, f);
      }
    }
  }

  lemma NoRelayStep(puts: set<(Id, Fact)>, net: Net, a: Id, b: Id, s: Step)
    requires net.nodes.Keys == {a, b} && a != b && Valid(net.nodes[a]) && Valid(net.nodes[b])
    requires NewPuts(net.nodes.Keys, s) <= puts
    requires NoRelay(puts, net, a, b) && NoRelay(puts, net, b, a)
    ensures a in Apply(net, s).nodes && NoRelay(puts, Apply(net, s), a, b)
  {
    var after := Apply(net, s);
    ApplyNodes(net, s);
    forall o: Id, f: Id | Lookup(after.nodes[a], o, f).Some?
      ensures (o == a || o == b) && (o, FactOf(Lookup(after.nodes[a], o, f).value)) in puts
    {
      NoRelayNode(puts, net, a, b, s, o, f);
    }
    forall k: nat, m: Mail | InFlight(after, Pipe(k, b, a), m)
      ensures FilesPutAt(puts, b, m.msg)
    {
      FlightStep(net, s, Pipe(k, b, a), m);
      if s == ListOffer(Pipe(k, b, a)) {
        OwnOffer(puts, a, b, net.nodes[b]);
      }
    }
  }

  lemma NoRelayGrows(puts: set<(Id, Fact)>, more: set<(Id, Fact)>, net: Net, a: Id, b: Id)
    requires a in net.nodes && NoRelay(puts, net, a, b) && puts <= more
    ensures NoRelay(more, net, a, b)
  {
  }

  /** No echo between two nodes: in every reachable state of a two-node network, each
      entry a holds under b was put locally at b. */
  lemma {:induction false} TwoNodesNoEcho(a: Id, b: Id, run: seq<Step>)
    requires a != b
    ensures Exec({a, b}, run).nodes.Keys == {a, b}
    ensures NoRelay(Puts({a, b}, run), Exec({a, b}, run), a, b)
    ensures NoRelay(Puts({a, b}, run), Exec({a, b}, run), b, a)
  {
    var ids := {a, b};
    ExecNodes(ids, run);
    if run == [] {
      forall o: Id, f: Id
        ensures Lookup(EMPTY_DB, o, f) == None
      {
      }
    } else {
      var init, last := run[..|run| - 1], run[|run| - 1];
      var net, puts := Exec(ids, init), Puts(ids, run);
      TwoNodesNoEcho(a, b, init);
      EveryEntryWasPut(ids, init);
      assert NodeOk(Puts(ids, init), a, net.nodes[a]) && NodeOk(Puts(ids, init), b, net.nodes[b]);
      NoRelayGrows(Puts(ids, init), puts, net, a, b);
      NoRelayGrows(Puts(ids, init), puts, net, b, a);
      NoRelayStep(puts, net, a, b, last);
      NoRelayStep(puts, net, b, a, last);
    }
  }

  // ---- three nodes: the owner is rewritten at every hop ----

  /** One offer of p.src to p.dst, listed, sent and delivered. */
  function Hop(p: Pipe): seq<Step> { [ListOffer(p), Send(0, true), Deliver(p, 0), Send(0, true)] }

  lemma {:induction false} PutsAppend(ids: set<Id>, run: seq<Step>, more: seq<Step>)
    ensures Puts(ids, run + more) == Puts(ids, run) + Puts(ids, more)
    decreases |more|
  {
    if more == [] {
      assert run + more == run;
    } else {
      PutsAppend(ids, run, more[..|more| - 1]);
      assert (run + more)[..|run + more| - 1] == run + more[..|more| - 1];
    }
  }

  lemma NoPutsInHop(ids: set<Id>, p: Pipe)
    ensures Puts(ids, Hop(p)) == {}
  {
    var h := Hop(p);
    assert h[..3][..2] == h[..2] && h[..2][..1] == h[..1] && h[..1][..0] == [];
    assert Puts(ids, h[..1]) == {} && Puts(ids, h[..2]) == {} && Puts(ids, h[..3]) == {};
  }

  lemma ListAndSend(net: Net, p: Pipe)
    requires Joins(net, p) && p in net.pipes && net.pipes[p] == [] && net.sending == []
    ensures var mail := Mail(OfferTo(net.nodes[p.src], p.dst), net.clock);
            Apply(Apply(net, ListOffer(p)), Send(0, true)) == net.(pipes := net.pipes[p := [mail]], clock := net.clock + 2)
  {
    var mail := Mail(OfferTo(net.nodes[p.src], p.dst), net.clock);
    var listed := Apply(net, ListOffer(p));
    assert listed.sending == [Sending(p, mail)];
    assert RemoveAt(listed.sending, 0) == [];
    assert [] + [mail] == [mail];
  }

  lemma DeliverAndAck(net: Net, p: Pipe, mail: Mail)
    requires Joins(net, p) && p in net.pipes && net.pipes[p] == [mail] && net.sending == []
    requires mail.msg.Offer? && BatchEncodable(Accepted(mail.msg.files))
    ensures var net' := Apply(Apply(net, Deliver(p, 0)), Send(0, true));
            && net'.nodes == net.nodes[p.dst := HandleOffer(net.nodes[p.dst], p.src, mail.msg.files, 0).0]
            && net'.sending == []
            && forall q: Pipe :: q != p && q != Flip(p) ==> (q in net'.pipes <==> q in net.pipes) && Queue(net', q) == Queue(net, q)
  {
    var got := Apply(net, Deliver(p, 0));
    assert |got.sending| == 1 && got.sending[0].pipe == Flip(p);
  }

  lemma ExecHop(ids: set<Id>, run: seq<Step>, p: Pipe)
    ensures Exec(ids, run + Hop(p)) ==
              Apply(Apply(Apply(Apply(Exec(ids, run), ListOffer(p)), Send(0, true)), Deliver(p, 0)), Send(0, true))
  {
    var run1 := run + [ListOffer(p)];
    var run2 := run1 + [Send(0, true)];
    var run3 := run2 + [Deliver(p, 0)];
    ExecSnoc(ids, run, ListOffer(p));
    ExecSnoc(ids, run1, Send(0, true));
    ExecSnoc(ids, run2, Deliver(p, 0));
    ExecSnoc(ids, run3, Send(0, true));
    assert run + Hop(p) == run3 + [Send(0, true)];
  }

  /** From a state with no send under way and an empty pipe, a hop hands the offer over. */
  lemma HopDelivers(ids: set<Id>, run: seq<Step>, p: Pipe)
    requires var net := Exec(ids, run);
             Joins(net, p) && p in net.pipes && net.pipes[p] == [] && net.sending == []
    requires Valid(Exec(ids, run).nodes[p.src]) && AllEncodable(Exec(ids, run).nodes[p.src])
    ensures var net, net' := Exec(ids, run), Exec(ids, run + Hop(p));
            && net'.nodes == net.nodes[p.dst := HandleOffer(net.nodes[p.dst], p.src, OfferTo(net.nodes[p.src], p.dst).files, 0).0]
            && net'.sending == []
            && forall q: Pipe :: q != p && q != Flip(p) ==> (q in net'.pipes <==> q in net.pipes) && Queue(net', q) == Queue(net, q)
  {
    var net := Exec(ids, run);
    var mail := Mail(OfferTo(net.nodes[p.src], p.dst), net.clock);
    ExecHop(ids, run, p);
    ListAndSend(net, p);
    AcceptedOfSent(ForPeer(net.nodes[p.src], p.dst));
    SentIsEncodable(net.nodes[p.src], p.dst);
    DeliverAndAck(net.(pipes := net.pipes[p := [mail]], clock := net.clock + 2), p, mail);
  }

  function RelayRun(a: Id, b: Id, c: Id, e: Entry): seq<Step> {
    [] + [Connect(a, b)] + [Connect(b, c)] + [LocalPut(a, e, 0)] + Hop(Pipe(0, a, b)) + Hop(Pipe(1, b, c))
  }

  /** Two connections from a fresh network. */
  lemma RelayLinked(a: Id, b: Id, c: Id)
    requires a != b && b != c && a != c
    ensures var ids := {a, b, c};
            var net := Apply(Apply(Start(ids), Connect(a, b)), Connect(b, c));
            && net.nodes == Start(ids).nodes && net.sending == []
            && Pipe(0, a, b) in net.pipes && net.pipes[Pipe(0, a, b)] == []
            && Pipe(1, b, c) in net.pipes && net.pipes[Pipe(1, b, c)] == []
  {
  }

  lemma RelayPuts(ids: set<Id>, a: Id, b: Id, c: Id, e: Entry)
    requires a in ids && Encodable(e.modTime)
    ensures Puts(ids, [] + [Connect(a, b)] + [Connect(b, c)] + [LocalPut(a, e, 0)]) == {(a, FactOf(e))}
  {
    var run1 := [] + [Connect(a, b)];
    PutsSnoc(ids, [], Connect(a, b));
    PutsSnoc(ids, run1, Connect(b, c));
    PutsSnoc(ids, run1 + [Connect(b, c)], LocalPut(a, e, 0));
  }

  lemma RelayStart(a: Id, b: Id, c: Id, e: Entry)
    requires a != b && b != c && a != c && Encodable(e.modTime)
    ensures var ids := {a, b, c};
            var run := [] + [Connect(a, b)] + [Connect(b, c)] + [LocalPut(a, e, 0)];
            var net := Exec(ids, run);
            && net.nodes == Start(ids).nodes[a := PutLocal(EMPTY_DB, a, e, 0)] && net.sending == []
            && Pipe(0, a, b) in net.pipes && net.pipes[Pipe(0, a, b)] == []
            && Pipe(1, b, c) in net.pipes && net.pipes[Pipe(1, b, c)] == []
            && Puts(ids, run) == {(a, FactOf(e))}
  {
    var ids := {a, b, c};
    var run1 := [] + [Connect(a, b)];
    ExecSnoc(ids, [], Connect(a, b));
    ExecSnoc(ids, run1, Connect(b, c));
    RelayLinked(a, b, c);
    PutStep(Exec(ids, run1 + [Connect(b, c)]), a, e);
    ExecSnoc(ids, run1 + [Connect(b, c)], LocalPut(a, e, 0));
    RelayPuts(ids, a, b, c, e);
  }

  lemma PutStep(net: Net, a: Id, e: Entry)
    requires a in net.nodes
    ensures var net' := Apply(net, LocalPut(a, e, 0));
            && net'.nodes == net.nodes[a := PutLocal(net.nodes[a], a, e, 0)]
            && net'.sending == net.sending && net'.pipes == net.pipes
  {
  }

  lemma PutsSnoc(ids: set<Id>, run: seq<Step>, s: Step)
    ensures Puts(ids, run + [s]) == Puts(ids, run) + NewPuts(ids, s)
  {
    assert (run + [s])[..|run|] == run;
  }

  /** With a third node the two-node law fails: c ends up holding under b a file that
      was put at a and never at b. */
  lemma RelayedUnderAnotherOwner(a: Id, b: Id, c: Id, e: Entry)
    requires a != b && b != c && a != c && Encodable(e.modTime)
    ensures var run := RelayRun(a, b, c, e);
            var net := Exec({a, b, c}, run);
            && c in net.nodes
            && LiveAt(net.nodes[c], b, e.fileID)
            && forall f: Fact :: (b, f) !in Puts({a, b, c}, run)
  {
    var ids := {a, b, c};
    var put := [] + [Connect(a, b)] + [Connect(b, c)] + [LocalPut(a, e, 0)];
    RelayStart(a, b, c, e);
    TwoHops(ids, put, a, b, c, e);
    NoPutsInHop(ids, Pipe(0, a, b));
    NoPutsInHop(ids, Pipe(1, b, c));
    PutsAppend(ids, put, Hop(Pipe(0, a, b)));
    PutsAppend(ids, put + Hop(Pipe(0, a, b)), Hop(Pipe(1, b, c)));
  }

  /** One hop makes a file that is live at the sender live under the sender at the receiver. */
  lemma HopCarries(ids: set<Id>, run: seq<Step>, p: Pipe, o: Id, f: Id)
    requires var net := Exec(ids, run);
             && Joins(net, p) && p in net.pipes && net.pipes[p] == [] && net.sending == []
             && Valid(net.nodes[p.src]) && AllEncodable(net.nodes[p.src]) && net.nodes[p.dst] == EMPTY_DB
             && o != p.dst && LiveAt(net.nodes[p.src], o, f)
    ensures var dbs := Exec(ids, run + Hop(p)).nodes;
            p.dst in dbs && Valid(dbs[p.dst]) && AllEncodable(dbs[p.dst]) && LiveAt(dbs[p.dst], p.src, f)
  {
    var net := Exec(ids, run);
    HopDelivers(ids, run, p);
    DeliveredFilesAreLiveFiles(p.src, net.nodes[p.src], p.dst, EMPTY_DB, 0, f);
    AfterOneOfferEncodable(p.src, net.nodes[p.src], p.dst, 0);
  }

  lemma TwoHops(ids: set<Id>, run: seq<Step>, a: Id, b: Id, c: Id, e: Entry)
    requires a != b && b != c && a != c && Encodable(e.modTime)
    requires var net := Exec(ids, run);
             && {a, b, c} <= net.nodes.Keys && net.nodes[b] == net.nodes[c] == EMPTY_DB
             && net.nodes[a] == PutLocal(EMPTY_DB, a, e, 0) && net.sending == []
             && Pipe(0, a, b) in net.pipes && net.pipes[Pipe(0, a, b)] == []
             && Pipe(1, b, c) in net.pipes && net.pipes[Pipe(1, b, c)] == []
    ensures var end := Exec(ids, run + Hop(Pipe(0, a, b)) + Hop(Pipe(1, b, c)));
            c in end.nodes && LiveAt(end.nodes[c], b, e.fileID)
  {
    PutLocalLookup(EMPTY_DB, a, e, 0, a, e.fileID);
    OneEntryEncodable(a, e);
    HopCarries(ids, run, Pipe(0, a, b), a, e.fileID);
    HopDelivers(ids, run, Pipe(0, a, b));
    var mid := run + Hop(Pipe(0, a, b));
    assert Queue(Exec(ids, mid), Pipe(1, b, c)) == [];
    HopCarries(ids, mid, Pipe(1, b, c), a, e.fileID);
  }

  lemma OneEntryEncodable(a: Id, e: Entry)
    requires Encodable(e.modTime)
    ensures AllEncodable(PutLocal(EMPTY_DB, a, e, 0))
  {
    forall o: Id, g: Id
      ensures var l := Lookup(PutLocal(EMPTY_DB, a, e, 0), o, g); l.Some? ==> Encodable(l.value.modTime)
    {
      PutLocalLookup(EMPTY_DB, a, e, 0, o, g);
    }
  }

  lemma AfterOneOfferEncodable(a: Id, dbA: Db, b: Id, now: int)
    requires Valid(dbA) && AllEncodable(dbA)
    ensures var db := HandleOffer(EMPTY_DB, a, OfferTo(dbA, b).files, now).0; Valid(db) && AllEncodable(db)
  {
    var db := HandleOffer(EMPTY_DB, a, OfferTo(dbA, b).files, now).0;
    DeliveryReplacesAll(a, dbA, b, EMPTY_DB, now, a, a);
    forall o: Id, g: Id
      ensures Lookup(db, o, g).Some? ==> Encodable(Lookup(db, o, g).value.modTime)
    {
      DeliveryReplacesAll(a, dbA, b, EMPTY_DB, now, o, g);
      var es := ForPeer(dbA, b);
      LastListedIsLast(es, g);
      if LastListed(es, g).Some? {
        var i :| 0 <= i < |es| && es[i] == LastListed(es, g).value;
        ForPeerMember(dbA, b, i);
        TruncateTime(es[i].modTime);
      }
    }
  }
}
