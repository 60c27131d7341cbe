/** The availability index against the entries, over every run of store operations. */
module Availability {
  import opened Basics
  import opened Catalog
  import opened CatalogLaws

  datatype Op =
    | PutLocalOp(entry: Entry, now: int)
    | DeleteLocalOp(file: Id, now: int)
    | PutPeerOp(peer: Id, batch: seq<Entry>, now: int)
    | RemovePeerOp(peer: Id)

  function Apply(db: Db, self: Id, op: Op): Db {
    match op
    case PutLocalOp(e, now) => PutLocal(db, self, e, now)
    case DeleteLocalOp(f, now) => DeleteLocal(db, self, f, now)
    case PutPeerOp(peer, batch, now) => PutPeerEntries(db, peer, batch, now)
    case RemovePeerOp(peer) => RemovePeer(db, peer)
  }

  /** The store of node `self` after the operations, from an empty database. */
  function Exec(self: Id, ops: seq<Op>): Db {
    if ops == [] then EMPTY_DB
    else Apply(Exec(self, ops[..|ops| - 1]), self, ops[|ops| - 1])
  }

  ghost predicate Covers(db: Db) {
    forall o: Id, f: Id :: LiveAt(db, o, f) ==> Hinted(db.avail, f, o)
  }

  ghost predicate Inv(db: Db) {
    Valid(db) && IndexOk(db.avail) && Covers(db)
  }

  lemma ApplyValid(db: Db, self: Id, op: Op)
    requires Inv(db)
    ensures Valid(Apply(db, self, op)) && IndexOk(Apply(db, self, op).avail)
  {
    var f := self;
    match op
    case PutLocalOp(e, now) =>
      PutLocalLookup(db, self, e, now, self, f);
      AddAvailOk(db.avail, e.fileID, self, now);
    case DeleteLocalOp(g, now) =>
      DeleteLocalLookup(db, self, g, now, self, f);
      RemoveAvailOk(db.avail, g, self);
    case PutPeerOp(peer, batch, now) =>
      PutPeerLookup(db, peer, batch, now, self, f);
      PutBatchHints(ClearPeer(db, peer), peer, batch, now, f, self);
    case RemovePeerOp(peer) =>
      RemovePeerLookup(db, peer, self, f);
      RemovePeerHints(db, peer, f, self);
  }

  /** What one operation does to the liveness and the hint of one (node, file) pair. */
  lemma StepAt(db: Db, self: Id, op: Op, o: Id, f: Id)
    requires Valid(db)
    ensures LiveAt(Apply(db, self, op), o, f) <==> LiveAfter(db, self, op, o, f)
    ensures Hinted(Apply(db, self, op).avail, f, o) <==> HintedAfter(db, self, op, o, f)
  {
    match op
    case PutLocalOp(e, now) =>
      PutLocalLookup(db, self, e, now, o, f);
      AddAvailHints(db.avail, e.fileID, self, now, f, o);
    case DeleteLocalOp(g, now) =>
      DeleteLocalLookup(db, self, g, now, o, f);
      RemoveAvailHints(db.avail, g, self, f, o);
    case PutPeerOp(peer, batch, now) =>
      PutPeerLookup(db, peer, batch, now, o, f);
      PutBatchHints(ClearPeer(db, peer), peer, batch, now, f, o);
    case RemovePeerOp(peer) =>
      RemovePeerLookup(db, peer, o, f);
      RemovePeerHints(db, peer, f, o);
  }

  predicate LastLive(batch: seq<Entry>, f: Id) {
    LastListed(batch, f).Some? && !LastListed(batch, f).value.deleted
  }

  ghost predicate LiveAfter(db: Db, self: Id, op: Op, o: Id, f: Id) {
    match op
    case PutLocalOp(e, _) => LiveAt(db, o, f) || (Encodable(e.modTime) && o == self && f == e.fileID)
    case DeleteLocalOp(g, _) => LiveAt(db, o, f) && !(o == self && f == g)
    case PutPeerOp(peer, batch, _) => if o == peer && BatchEncodable(batch) then LastLive(batch, f) else LiveAt(db, o, f)
    case RemovePeerOp(peer) => LiveAt(db, o, f) && o != peer
  }

  ghost predicate HintedAfter(db: Db, self: Id, op: Op, o: Id, f: Id) {
    match op
    case PutLocalOp(e, _) => Hinted(db.avail, f, o) || (Encodable(e.modTime) && o == self && f == e.fileID)
    case DeleteLocalOp(g, _) => Hinted(db.avail, f, o) && !(o == self && f == g && Lookup(db, o, f).Some?)
    case PutPeerOp(peer, batch, _) =>
      Hinted(db.avail, f, o) || (o == peer && BatchEncodable(batch) && ListedLive(batch, f))
    case RemovePeerOp(peer) => Hinted(db.avail, f, o) && !(o == peer && LiveAt(db, o, f))
  }

  lemma LastLiveIsListed(batch: seq<Entry>, f: Id)
    ensures LastLive(batch, f) ==> ListedLive(batch, f)
  {
    LastListedIsLast(batch, f);
  }

  lemma ApplyInv(db: Db, self: Id, op: Op)
    requires Inv(db)
    ensures Inv(Apply(db, self, op))
  {
    ApplyValid(db, self, op);
    forall o: Id, f: Id | LiveAt(Apply(db, self, op), o, f)
      ensures Hinted(Apply(db, self, op).avail, f, o)
    {
      StepAt(db, self, op, o, f);
      if op.PutPeerOp? {
        LastLiveIsListed(op.batch, f);
      }
    }
  }

  /** In every reachable store each live entry has its owner among the hints of its
      file, hint lists name no node twice and none is stored empty. */
  lemma {:induction false} IndexCoversEntries(self: Id, ops: seq<Op>)
    ensures Inv(Exec(self, ops))
  {
    if ops == [] {
      forall o: Id, f: Id
        ensures !LiveAt(EMPTY_DB, o, f)
      {
      }
    } else {
      IndexCoversEntries(self, ops[..|ops| - 1]);
      ApplyInv(Exec(self, ops[..|ops| - 1]), self, ops[|ops| - 1]);
    }
  }

  // ---- when the index is exact ----

  /** The hints that name `node` are exactly the files `node` owns live. */
  ghost predicate Exact(db: Db, node: Id) {
    forall f: Id :: Hinted(db.avail, f, node) <==> LiveAt(db, node, f)
  }

  /** A batch that keeps every file the peer had live, and ends live every file it
      lists live. */
  ghost predicate Clean(db: Db, peer: Id, batch: seq<Entry>) {
    BatchEncodable(batch) ==>
      && (forall f: Id :: LiveAt(db, peer, f) ==> LastLive(batch, f))
      && (forall f: Id :: ListedLive(batch, f) ==> LastLive(batch, f))
  }

  /** From an exact index, an operation keeps it exact for `node` unless it replaces
      the node's batch by one that is not clean, and then it never does. */
  lemma ExactStep(db: Db, self: Id, op: Op, node: Id)
    requires Inv(db) && Exact(db, node)
    ensures Exact(Apply(db, self, op), node) <==> (op.PutPeerOp? && op.peer == node ==> Clean(db, node, op.batch))
  {
    var db' := Apply(db, self, op);
    forall f: Id
      ensures LiveAt(db', node, f) <==> LiveAfter(db, self, op, node, f)
      ensures Hinted(db'.avail, f, node) <==> HintedAfter(db, self, op, node, f)
      ensures op.PutPeerOp? && LastLive(op.batch, f) ==> ListedLive(op.batch, f)
      ensures Hinted(db.avail, f, node) <==> LiveAt(db, node, f)
    {
      StepAt(db, self, op, node, f);
      if op.PutPeerOp? {
        LastLiveIsListed(op.batch, f);
      }
    }
    if op.PutPeerOp? && op.peer == node {
      ExactIffClean(db, db', self, op);
    } else {
      assert Exact(db', node);
    }
  }

  lemma ExactIffClean(db: Db, db': Db, self: Id, op: Op)
    requires op.PutPeerOp? && Exact(db, op.peer)
    requires forall f: Id :: LiveAt(db', op.peer, f) <==> LiveAfter(db, self, op, op.peer, f)
    requires forall f: Id :: Hinted(db'.avail, f, op.peer) <==> HintedAfter(db, self, op, op.peer, f)
    requires forall f: Id :: LastLive(op.batch, f) ==> ListedLive(op.batch, f)
    ensures Exact(db', op.peer) <==> Clean(db, op.peer, op.batch)
  {
    var node := op.peer;
    if Exact(db', node) && BatchEncodable(op.batch) {
      forall f: Id | LiveAt(db, node, f) || ListedLive(op.batch, f)
        ensures LastLive(op.batch, f)
      {
        assert HintedAfter(db, self, op, node, f);
        assert Hinted(db'.avail, f, node);
        assert LiveAt(db', node, f);
      }
    }
  }

  /** The index is exact for the node after every prefix of the run. */
  ghost predicate AlwaysExact(self: Id, ops: seq<Op>, node: Id) {
    Exact(Exec(self, ops), node) && (ops != [] ==> AlwaysExact(self, ops[..|ops| - 1], node))
  }

  /** Every batch put for the node is clean when it is applied. */
  ghost predicate AllClean(self: Id, ops: seq<Op>, node: Id) {
    ops != [] ==>
      var init, last := ops[..|ops| - 1], ops[|ops| - 1];
      && AllClean(self, init, node)
      && (last.PutPeerOp? && last.peer == node ==> Clean(Exec(self, init), node, last.batch))
  }

  lemma EmptyExact(node: Id)
    ensures Exact(EMPTY_DB, node)
  {
    forall f: Id
      ensures !LiveAt(EMPTY_DB, node, f) && !Hinted(EMPTY_DB.avail, f, node)
    {
    }
  }

  /** The index stays exact for a node all along a run if and only if every batch that
      replaces the node's entries is clean when it is applied. */
  lemma {:induction false} ExactIffAllClean(self: Id, ops: seq<Op>, node: Id)
    ensures AlwaysExact(self, ops, node) <==> AllClean(self, ops, node)
  {
    if ops == [] {
      EmptyExact(node);
    } else {
      var init := ops[..|ops| - 1];
      ExactIffAllClean(self, init, node);
      if AlwaysExact(self, init, node) {
        IndexCoversEntries(self, init);
        ExactStep(Exec(self, init), self, ops[|ops| - 1], node);
      }
    }
  }

  lemma {:induction false} NoBatchIsClean(self: Id, ops: seq<Op>, node: Id)
    requires forall i :: 0 <= i < |ops| && ops[i].PutPeerOp? ==> ops[i].peer != node
    ensures AllClean(self, ops, node)
  {
    if ops != [] {
      NoBatchIsClean(self, ops[..|ops| - 1], node);
    }
  }

  /** For the node itself the index is exact whenever peer operations use other IDs. */
  lemma SelfExact(self: Id, ops: seq<Op>, f: Id)
    requires forall i :: 0 <= i < |ops| && ops[i].PutPeerOp? ==> ops[i].peer != self
    ensures Hinted(Exec(self, ops).avail, f, self) <==> LiveAt(Exec(self, ops), self, f)
  {
    NoBatchIsClean(self, ops, self);
    ExactIffAllClean(self, ops, self);
  }

  // ---- the caller's discipline: remove before replacing, never mix live and deleted ----

  ghost predicate NoMix(batch: seq<Entry>) {
    forall i, j :: 0 <= i < |batch| && 0 <= j < |batch| && batch[i].fileID == batch[j].fileID
      ==> batch[i].deleted == batch[j].deleted
  }

  /** Between two batches of a peer there is a RemovePeer, and no batch lists a file
      both live and deleted. */
  ghost predicate Disciplined(ops: seq<Op>, peer: Id) {
    forall i :: 0 <= i < |ops| && ops[i].PutPeerOp? && ops[i].peer == peer ==>
      && NoMix(ops[i].batch)
      && forall j :: 0 <= j < i && ops[j].PutPeerOp? && ops[j].peer == peer ==>
           exists k :: j < k < i && ops[k] == RemovePeerOp(peer)
  }

  /** The peer has no entry if its last batch, if any, was removed. */
  lemma {:induction false} RemovedMeansNone(self: Id, ops: seq<Op>, peer: Id, f: Id)
    requires peer != self
    requires forall j :: 0 <= j < |ops| && ops[j].PutPeerOp? && ops[j].peer == peer ==>
               exists k :: j < k < |ops| && ops[k] == RemovePeerOp(peer)
    ensures Lookup(Exec(self, ops), peer, f) == None
  {
    if ops != [] {
      var n := |ops| - 1;
      var db := Exec(self, ops[..n]);
      IndexCoversEntries(self, ops[..n]);
      match ops[n]
      case RemovePeerOp(p) =>
        RemovePeerLookup(db, p, peer, f);
        if p != peer {
          RemovedInit(ops, peer);
          RemovedMeansNone(self, ops[..n], peer, f);
        }
      case PutLocalOp(e, now) =>
        PutLocalLookup(db, self, e, now, peer, f);
        RemovedInit(ops, peer);
        RemovedMeansNone(self, ops[..n], peer, f);
      case DeleteLocalOp(g, now) =>
        DeleteLocalLookup(db, self, g, now, peer, f);
        RemovedInit(ops, peer);
        RemovedMeansNone(self, ops[..n], peer, f);
      case PutPeerOp(p, batch, now) =>
        PutPeerLookup(db, p, batch, now, peer, f);
        RemovedInit(ops, peer);
        RemovedMeansNone(self, ops[..n], peer, f);
    }
  }

  lemma RemovedInit(ops: seq<Op>, peer: Id)
    requires ops != [] && ops[|ops| - 1] != RemovePeerOp(peer)
    requires forall j :: 0 <= j < |ops| && ops[j].PutPeerOp? && ops[j].peer == peer ==>
               exists k :: j < k < |ops| && ops[k] == RemovePeerOp(peer)
    ensures var init := ops[..|ops| - 1];
            forall j :: 0 <= j < |init| && init[j].PutPeerOp? && init[j].peer == peer ==>
              exists k :: j < k < |init| && init[k] == RemovePeerOp(peer)
  {
    var init := ops[..|ops| - 1];
    forall j | 0 <= j < |init| && init[j].PutPeerOp? && init[j].peer == peer
      ensures exists k :: j < k < |init| && init[k] == RemovePeerOp(peer)
    {
      assert ops[j] == init[j];
      var k :| j < k < |ops| && ops[k] == RemovePeerOp(peer);
      assert init[k] == ops[k];
    }
  }

  lemma {:induction false} DisciplinedIsClean(self: Id, ops: seq<Op>, peer: Id)
    requires peer != self && Disciplined(ops, peer)
    ensures AllClean(self, ops, peer)
  {
    if ops != [] {
      var n := |ops| - 1;
      var init, last := ops[..n], ops[n];
      assert forall i :: 0 <= i < n ==> init[i] == ops[i];
      DisciplinedInit(ops, peer);
      DisciplinedIsClean(self, init, peer);
      if last.PutPeerOp? && last.peer == peer {
        forall f: Id
          ensures !LiveAt(Exec(self, init), peer, f)
          ensures ListedLive(last.batch, f) ==> LastLive(last.batch, f)
        {
          RemovedMeansNone(self, init, peer, f);
          LastListedIsLast(last.batch, f);
        }
      }
    }
  }

  lemma DisciplinedInit(ops: seq<Op>, peer: Id)
    requires ops != [] && Disciplined(ops, peer)
    ensures Disciplined(ops[..|ops| - 1], peer)
    ensures var n := |ops| - 1;
            ops[n].PutPeerOp? && ops[n].peer == peer ==>
              forall j :: 0 <= j < n && ops[..n][j].PutPeerOp? && ops[..n][j].peer == peer ==>
                exists k :: j < k < n && ops[..n][k] == RemovePeerOp(peer)
  {
    var n := |ops| - 1;
    var init := ops[..n];
    forall i, j | 0 <= j < i <= n && ops[i].PutPeerOp? && ops[i].peer == peer && ops[j].PutPeerOp? && ops[j].peer == peer
      ensures exists k :: j < k < i && init[k] == RemovePeerOp(peer)
    {
      var k :| j < k < i && ops[k] == RemovePeerOp(peer);
      assert init[k] == ops[k];
    }
  }

  /** A disciplined peer's index is exact at every point of every run. */
  lemma PeerExact(self: Id, ops: seq<Op>, peer: Id)
    requires peer != self && Disciplined(ops, peer)
    ensures AlwaysExact(self, ops, peer)
  {
    DisciplinedIsClean(self, ops, peer);
    ExactIffAllClean(self, ops, peer);
  }

  // ---- replacing a batch directly leaves a stale hint ----

  /** Two batches in a row: a file only the first one lists is gone but still hinted,
      and not even removing the peer withdraws that hint. */
  lemma StaleHintRun(self: Id, peer: Id, e: Entry, g: Entry)
    requires e.fileID != g.fileID && !e.deleted && Encodable(e.modTime) && Encodable(g.modTime)
    ensures var replaced := [] + [PutPeerOp(peer, [e], 0)] + [PutPeerOp(peer, [g], 0)];
            && !LiveAt(Exec(self, replaced), peer, e.fileID)
            && Hinted(Exec(self, replaced).avail, e.fileID, peer)
            && Hinted(Exec(self, replaced + [RemovePeerOp(peer)]).avail, e.fileID, peer)
  {
    var first := [] + [PutPeerOp(peer, [e], 0)];
    var second := first + [PutPeerOp(peer, [g], 0)];
    StaleStep(self, [], PutPeerOp(peer, [e], 0), peer, e.fileID);
    assert [e][0].fileID == e.fileID;
    StaleStep(self, first, PutPeerOp(peer, [g], 0), peer, e.fileID);
    LastListedIsLast([g], e.fileID);
    StaleStep(self, second, RemovePeerOp(peer), peer, e.fileID);
  }

  lemma StaleStep(self: Id, ops: seq<Op>, op: Op, o: Id, f: Id)
    ensures LiveAt(Exec(self, ops + [op]), o, f) <==> LiveAfter(Exec(self, ops), self, op, o, f)
    ensures Hinted(Exec(self, ops + [op]).avail, f, o) <==> HintedAfter(Exec(self, ops), self, op, o, f)
  {
    ExecSnoc(self, ops, op);
    IndexCoversEntries(self, ops);
    StepAt(Exec(self, ops), self, op, o, f);
  }

  lemma ExecSnoc(self: Id, ops: seq<Op>, op: Op)
    ensures Exec(self, ops + [op]) == Apply(Exec(self, ops), self, op)
  {
    assert (ops + [op])[..|ops|] == ops;
  }
}
