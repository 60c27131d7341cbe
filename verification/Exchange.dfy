/** Catalog exchange: what delivering one offer does, and the network of nodes that
    swap whole catalogs over FIFO connections. */
module Exchange {
  import opened Basics
  import opened Catalog
  import opened CatalogLaws
  import opened Convert
  import CatalogStore

  const UINT32 := 0x1_0000_0000

  datatype Msg = Offer(files: seq<CatalogFile>) | Ack(count: int)

  /** sendCatalogOfferTo: everything live that the receiver does not itself own. */
  function OfferTo(db: Db, dst: Id): Msg {
    Offer(Map(ForPeer(db, dst), ToProto()))
  }

  /** handleCatalogOffer, as the new store and the reply, if any. */
  function HandleOffer(db: Db, src: Id, files: seq<CatalogFile>, now: int): (Db, seq<Msg>) {
    var batch := Accepted(files);
    (PutPeerEntries(db, src, batch, now),
     if BatchEncodable(batch) then [Ack(|batch| % UINT32)] else [])
  }

  /** The handler's loop over the offered files, its store update and its reply. */
  method HandleCatalogOffer(store: CatalogStore.Store, files: seq<CatalogFile>, src: Id, now: int)
    returns (reply: seq<Msg>)
    requires Valid(store.State())
    modifies store
    ensures Valid(store.State())
    ensures (store.State(), reply) == HandleOffer(old(store.State()), src, files, now)
  {
    var entries := AcceptFiles(files);
    var ok := store.PutPeerEntries(src, entries, now);
    reply := if ok then [Ack(|entries| % UINT32)] else [];
  }

  method SendCatalogOffer(store: CatalogStore.Store, dst: Id) returns (msg: Msg)
    ensures msg == OfferTo(store.State(), dst)
  {
    var entries := store.ListForPeer(dst);
    var files := EntriesToProto(entries);
    msg := Offer(files);
  }

  // ---- delivering one offer ----

  lemma {:induction false} LastListedOfMap(es: seq<Entry>, f: Id)
    ensures LastListed(Map(es, Carry()), f)
         == var e := LastListed(es, f); if e.Some? then Some(Carried(e.value)) else None
  {
    if es != [] {
      var n := |es| - 1;
      LastListedOfMap(es[..n], f);
      assert Map(es, Carry())[..n] == Map(es[..n], Carry());
    }
  }

  ghost predicate AllEncodable(db: Db) {
    forall o: Id, f: Id :: Lookup(db, o, f).Some? ==> Encodable(Lookup(db, o, f).value.modTime)
  }

  lemma ForPeerMember(db: Db, dst: Id, i: nat)
    requires Valid(db) && i < |ForPeer(db, dst)|
    ensures var e := ForPeer(db, dst)[i];
            e.owner != dst && !e.deleted && Lookup(db, e.owner, e.fileID) == Some(e)
  {
    var j := FilterOrigin(All(db), NotOwnedBy(dst), i);
    AllMembers(db, All(db)[j]);
  }

  lemma SentIsEncodable(db: Db, dst: Id)
    requires Valid(db) && AllEncodable(db)
    ensures BatchEncodable(Map(ForPeer(db, dst), Carry()))
  {
    var es := ForPeer(db, dst);
    forall i | 0 <= i < |es|
      ensures Encodable(Carried(es[i]).modTime)
    {
      ForPeerMember(db, dst, i);
      TruncateTime(es[i].modTime);
    }
  }

  /** Delivering A's offer at B makes B's A-owned entries exactly the last listing of
      each file in A's list for B, carried over the wire, whatever B held for A
      before; no other owner's entry changes, and the ack counts the whole list. */
  lemma DeliveryReplacesAll(a: Id, dbA: Db, b: Id, dbB: Db, now: int, o: Id, f: Id)
    requires Valid(dbA) && Valid(dbB) && AllEncodable(dbA)
    ensures var (after, reply) := HandleOffer(dbB, a, OfferTo(dbA, b).files, now);
            && Valid(after)
            && reply == [Ack(|ForPeer(dbA, b)| % UINT32)]
            && Lookup(after, o, f) ==
                 if o != a then Lookup(dbB, o, f)
                 else match LastListed(ForPeer(dbA, b), f)
                      case None => None
                      case Some(e) => Some(Stamp(Carried(e), a, now))
  {
    var es := ForPeer(dbA, b);
    AcceptedOfSent(es);
    SentIsEncodable(dbA, b);
    LastListedOfMap(es, f);
    PutPeerLookup(dbB, a, Map(es, Carry()), now, o, f);
  }

  /** Whatever a peer sends, the ack counts the files with a 32-byte ID and a 32-byte
      owner, and there is no ack exactly when one of their times cannot be stored. */
  lemma AckCountsWellFormed(db: Db, src: Id, files: seq<CatalogFile>, now: int)
    ensures var good := Filter(files, (f: CatalogFile) => |f.fileId| == 32 && |f.ownerNodeId| == 32);
            var storable := forall i :: 0 <= i < |good| ==> Encodable(FromUnix(good[i].modTimeUnix));
            HandleOffer(db, src, files, now).1 == if storable then [Ack(|good| % 0x1_0000_0000)] else []
  {
    AcceptedFields(files);
  }

  /** Delivering the same offer again changes update times only. */
  lemma RedeliveryIsIdempotent(a: Id, db: Db, files: seq<CatalogFile>, now: int, later: int, o: Id, f: Id)
    requires Valid(db)
    ensures var once := HandleOffer(db, a, files, now).0;
            var twice := HandleOffer(once, a, files, later).0;
            && Lookup(once, o, f).Some? == Lookup(twice, o, f).Some?
            && (Lookup(once, o, f).Some? ==>
                  Lookup(once, o, f).value.(updatedAt := 0) == Lookup(twice, o, f).value.(updatedAt := 0))
  {
    var batch := Accepted(files);
    PutPeerLookup(db, a, batch, now, o, f);
    PutPeerLookup(PutPeerEntries(db, a, batch, now), a, batch, later, o, f);
  }

  /** A file is listed for a peer exactly when it is live under some other owner. */
  lemma ListedIffLive(db: Db, dst: Id, f: Id)
    requires Valid(db)
    ensures LastListed(ForPeer(db, dst), f).Some? <==> exists o: Id :: o != dst && LiveAt(db, o, f)
    ensures LastListed(ForPeer(db, dst), f).Some? ==> !LastListed(ForPeer(db, dst), f).value.deleted
  {
    var es := ForPeer(db, dst);
    LastListedIsLast(es, f);
    if LastListed(es, f).Some? {
      var i :| 0 <= i < |es| && es[i] == LastListed(es, f).value && es[i].fileID == f;
      ForPeerMember(db, dst, i);
      assert es[i].owner != dst && LiveAt(db, es[i].owner, f);
    }
    if o: Id :| o != dst && LiveAt(db, o, f) {
      ListedForPeer(db, dst, o, f);
    }
  }

  /** The receiver sees live under A exactly the files A holds live, under any owner
      but the receiver itself. */
  lemma DeliveredFilesAreLiveFiles(a: Id, dbA: Db, b: Id, dbB: Db, now: int, f: Id)
    requires Valid(dbA) && Valid(dbB) && AllEncodable(dbA)
    ensures LiveAt(HandleOffer(dbB, a, OfferTo(dbA, b).files, now).0, a, f)
       <==> exists o: Id :: o != b && LiveAt(dbA, o, f)
  {
    DeliveryReplacesAll(a, dbA, b, dbB, now, a, f);
    ListedIffLive(dbA, b, f);
  }

  lemma ListedForPeer(db: Db, dst: Id, o: Id, f: Id)
    requires Valid(db) && o != dst && LiveAt(db, o, f)
    ensures exists i :: 0 <= i < |ForPeer(db, dst)| && ForPeer(db, dst)[i].fileID == f
  {
    LookupIsOwn(db, o, f);
    var e := Lookup(db, o, f).value;
    AllMembers(db, e);
    FilterMembers(All(db), NotOwnedBy(dst));
    var j :| 0 <= j < |All(db)| && All(db)[j] == e;
    assert NotOwnedBy(dst)(All(db)[j]);
    assert e in ForPeer(db, dst);
  }

  // ---- the network ----

  /** One direction of one connection. Two nodes may have several connections at once. */
  datatype Pipe = Pipe(conn: nat, src: Id, dst: Id)

  function Flip(p: Pipe): Pipe { Pipe(p.conn, p.dst, p.src) }

  /** A message and the number of steps taken when it was prepared. The mark is not
      sent; it lets theorems speak about the moment an offer was listed. */
  datatype Mail = Mail(msg: Msg, at: nat)

  /** A goroutine between preparing a message and sending it under the send mutex. */
  datatype Sending = Sending(pipe: Pipe, mail: Mail)

  /** Open pipes with the messages on them, and the sends under way. */
  datatype Net = Net(
    nodes: map<Id, Db>,
    pipes: map<Pipe, seq<Mail>>,
    sending: seq<Sending>,
    next: nat,
    clock: nat)

  /** Listing an offer and sending it are two steps, and so are handling an offer and
      sending its ack; a send fails on a closed pipe or when `ok` is false. */
  datatype Step =
    | LocalPut(node: Id, entry: Entry, now: int)
    | LocalDelete(node: Id, file: Id, now: int)
    | Connect(a: Id, b: Id)
    | Disconnect(pipe: Pipe)
    | ListOffer(pipe: Pipe)
    | Send(i: nat, ok: bool)
    | Deliver(pipe: Pipe, now: int)

  function Queue(net: Net, p: Pipe): seq<Mail> {
    if p in net.pipes then net.pipes[p] else []
  }

  predicate Joins(net: Net, p: Pipe) {
    p.src in net.nodes && p.dst in net.nodes && p.src != p.dst
  }

  predicate Enabled(net: Net, s: Step) {
    match s
    case LocalPut(n, _, _) => n in net.nodes
    case LocalDelete(n, _, _) => n in net.nodes
    case Connect(a, b) => Joins(net, Pipe(0, a, b))
    case Disconnect(p) => Joins(net, p)
    case ListOffer(p) => Joins(net, p)
    case Send(i, _) => i < |net.sending|
    case Deliver(p, _) => Joins(net, p) && Queue(net, p) != []
  }

  function RemoveAt<T>(s: seq<T>, i: nat): seq<T>
    requires i < |s|
  {
    s[..i] + s[i + 1..]
  }

  predicate Arrives(net: Net, i: nat, ok: bool) {
    i < |net.sending| && ok && net.sending[i].pipe in net.pipes
  }

  function SendOne(net: Net, i: nat, ok: bool): Net
    requires i < |net.sending|
  {
    var s := net.sending[i];
    net.(sending := RemoveAt(net.sending, i),
         pipes := if Arrives(net, i, ok) then net.pipes[s.pipe := net.pipes[s.pipe] + [s.mail]] else net.pipes)
  }

  function Reply(net: Net, p: Pipe, now: int): seq<Sending>
    requires Enabled(net, Deliver(p, now))
  {
    match Queue(net, p)[0].msg
    case Ack(_) => []
    case Offer(files) =>
      var acks := HandleOffer(net.nodes[p.dst], p.src, files, now).1;
      if acks == [] then [] else [Sending(Flip(p), Mail(acks[0], net.clock))]
  }

  function Receive(net: Net, p: Pipe, now: int): Net
    requires Enabled(net, Deliver(p, now))
  {
    var q := Queue(net, p);
    net.(pipes := net.pipes[p := q[1..]],
         sending := net.sending + Reply(net, p, now),
         nodes := if q[0].msg.Offer?
                  then net.nodes[p.dst := HandleOffer(net.nodes[p.dst], p.src, q[0].msg.files, now).0]
                  else net.nodes)
  }

  /** The effect of an enabled step, without the clock. */
  function Effect(net: Net, s: Step): Net
    requires Enabled(net, s)
  {
    match s
    case LocalPut(n, e, now) => net.(nodes := net.nodes[n := PutLocal(net.nodes[n], n, e, now)])
    case LocalDelete(n, f, now) => net.(nodes := net.nodes[n := DeleteLocal(net.nodes[n], n, f, now)])
    case Connect(a, b) =>
      net.(pipes := net.pipes[Pipe(net.next, a, b) := []][Pipe(net.next, b, a) := []], next := net.next + 1)
    case Disconnect(p) => net.(pipes := net.pipes - {p, Flip(p)})
    case ListOffer(p) =>
      net.(sending := net.sending + [Sending(p, Mail(OfferTo(net.nodes[p.src], p.dst), net.clock))])
    case Send(i, ok) => SendOne(net, i, ok)
    case Deliver(p, now) => Receive(net, p, now)
  }

  /** One atomic step; a step that is not enabled changes nothing but the clock. */
  function Apply(net: Net, s: Step): Net {
    (if Enabled(net, s) then Effect(net, s) else net).(clock := net.clock + 1)
  }

  function Start(ids: set<Id>): Net {
    Net(map n | n in ids :: EMPTY_DB, map[], [], 0, 0)
  }

  function Exec(ids: set<Id>, run: seq<Step>): Net {
    if run == [] then Start(ids)
    else Apply(Exec(ids, run[..|run| - 1]), run[|run| - 1])
  }

  lemma ApplyNodes(net: Net, s: Step)
    ensures Apply(net, s).nodes.Keys == net.nodes.Keys
  {
  }

  lemma {:induction false} ExecNodes(ids: set<Id>, run: seq<Step>)
    ensures Exec(ids, run).nodes.Keys == ids
    ensures Exec(ids, run).clock == |run|
  {
    if run != [] {
      ExecNodes(ids, run[..|run| - 1]);
      ApplyNodes(Exec(ids, run[..|run| - 1]), run[|run| - 1]);
    }
  }

  lemma ExecSnoc(ids: set<Id>, run: seq<Step>, s: Step)
    ensures Exec(ids, run + [s]) == Apply(Exec(ids, run), s)
  {
    assert (run + [s])[..|run|] == run;
  }

  /** A message is on the pipe or about to be sent on it. */
  predicate InFlight(net: Net, p: Pipe, m: Mail) {
    m in Queue(net, p) || Sending(p, m) in net.sending
  }

  /** What is in flight after a step was so before, is an ack, or was listed by it. */
  lemma FlightStep(net: Net, s: Step, p: Pipe, m: Mail)
    requires InFlight(Apply(net, s), p, m)
    ensures InFlight(net, p, m) || m.msg.Ack?
            || (s == ListOffer(p) && Enabled(net, s) && m == Mail(OfferTo(net.nodes[p.src], p.dst), net.clock))
  {
    if Enabled(net, s) && s.Send? {
      var x := net.sending[s.i];
      assert x in net.sending;
      assert forall y :: y in RemoveAt(net.sending, s.i) ==> y in net.sending;
    }
  }

  // ---- a connection that is gone ----

  ghost predicate PipesKnown(net: Net) {
    forall p :: p in net.pipes ==> p.conn < net.next
  }

  lemma PipesStep(net: Net, s: Step, p: Pipe)
    requires PipesKnown(net)
    ensures PipesKnown(Apply(net, s)) && net.next <= Apply(net, s).next
    ensures p.conn < net.next && p !in net.pipes ==> p !in Apply(net, s).pipes
  {
  }

  lemma {:induction false} AlwaysKnown(ids: set<Id>, run: seq<Step>)
    ensures PipesKnown(Exec(ids, run))
  {
    if run != [] {
      AlwaysKnown(ids, run[..|run| - 1]);
      var id: Id := seq(32, _ => 0);
      PipesStep(Exec(ids, run[..|run| - 1]), run[|run| - 1], Pipe(0, id, id));
    }
  }

  ghost predicate Closed(net: Net, p: Pipe) {
    p !in net.pipes && Flip(p) !in net.pipes && p.conn < net.next
  }

  lemma ClosedStep(net: Net, s: Step, p: Pipe)
    requires PipesKnown(net) && Closed(net, p)
    ensures Closed(Apply(net, s), p)
  {
    PipesStep(net, s, p);
    PipesStep(net, s, Flip(p));
  }

  lemma {:induction false} StaysClosed(ids: set<Id>, run: seq<Step>, p: Pipe, more: seq<Step>)
    requires Closed(Exec(ids, run), p)
    ensures Closed(Exec(ids, run + more), p)
    decreases |more|
  {
    if more == [] {
      assert run + more == run;
    } else {
      var init, last := more[..|more| - 1], more[|more| - 1];
      StaysClosed(ids, run, p, init);
      AlwaysKnown(ids, run + init);
      assert run + more == run + init + [last];
      ExecSnoc(ids, run + init, last);
      ClosedStep(Exec(ids, run + init), last, p);
    }
  }

  /** A closed connection stays closed: what was on it is lost, in both directions, and
      nothing is delivered on it again. */
  lemma DisconnectLoses(ids: set<Id>, run: seq<Step>, p: Pipe, more: seq<Step>, now: int)
    requires p in Exec(ids, run).pipes && Joins(Exec(ids, run), p)
    ensures var net := Exec(ids, run + [Disconnect(p)] + more);
            && p !in net.pipes && Flip(p) !in net.pipes
            && !Enabled(net, Deliver(p, now)) && !Enabled(net, Deliver(Flip(p), now))
  {
    AlwaysKnown(ids, run);
    ExecSnoc(ids, run, Disconnect(p));
    StaysClosed(ids, run + [Disconnect(p)], p, more);
  }
}
