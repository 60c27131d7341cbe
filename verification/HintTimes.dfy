/** The times in the availability index: when each owner was last seen with a file. */
module HintTimes {
  import opened Basics
  import opened Catalog
  import opened CatalogLaws
  import opened Availability

  /** addAvailability gives the node's first hint the new time, or appends a hint with it;
      every other hint keeps its time and its place. */
  lemma AddHintTimes(hints: seq<OwnerHint>, node: Id, now: int)
    ensures var r := AddHint(hints, node, now);
            && (Names(hints, node) ==> |r| == |hints|)
            && (!Names(hints, node) ==> r == hints + [OwnerHint(node, now)])
            && OwnerHint(node, now) in r
            && forall i :: 0 <= i < |hints| ==>
                 r[i] == if hints[i].nodeID == node && forall j :: 0 <= j < i ==> hints[j].nodeID != node
                         then OwnerHint(node, now) else hints[i]
  {
    var i := FirstHint(hints, node);
    assert AddHint(hints, node, now)[i] == OwnerHint(node, now);
    if i < |hints| {
      assert hints[i].nodeID == node;
    }
  }

  /** A hint for file f after an addition: the new one, or one that was there. */
  lemma AddAvailFrom(avail: Avail, g: Id, node: Id, now: int, f: Id, h: OwnerHint)
    requires IndexOk(avail)
    ensures h in HintsOf(AddAvail(avail, g, node, now), f) <==>
              if f == g && h.nodeID == node then h.seenAt == now else h in HintsOf(avail, f)
  {
    var old_, new_ := HintsOf(avail, g), HintsOf(AddAvail(avail, g, node, now), g);
    AddHintTimes(old_, node, now);
    if f == g {
      assert h.nodeID == node && h.seenAt == now ==> h == OwnerHint(node, now);
      if i :| 0 <= i < |new_| && new_[i] == h && h.nodeID == node {
        if i < |old_| {
          assert old_[i].nodeID == node;
        }
      }
      if i :| 0 <= i < |old_| && old_[i] == h && h.nodeID != node {
        assert new_[i] == h;
      }
    }
  }

  lemma RemoveAvailFrom(avail: Avail, g: Id, node: Id, f: Id, h: OwnerHint)
    ensures h in HintsOf(RemoveAvail(avail, g, node), f) <==>
              h in HintsOf(avail, f) && !(f == g && h.nodeID == node)
  {
    if g in avail {
      FilterMembers(avail[g], OtherNode(node));
      var kept := Filter(avail[g], OtherNode(node));
      if i :| 0 <= i < |avail[g]| && avail[g][i] == h && h.nodeID != node {
        assert avail[g][i] in kept;
      }
      if i :| 0 <= i < |kept| && kept[i] == h {
        assert kept[i] in avail[g] && OtherNode(node)(kept[i]);
      }
    }
  }

  lemma {:induction false} RemoveAllFrom(avail: Avail, es: seq<Entry>, node: Id, f: Id, h: OwnerHint)
    requires h in HintsOf(RemoveAvailAll(avail, es, node), f)
    ensures h in HintsOf(avail, f)
  {
    if es != [] {
      RemoveAvailFrom(RemoveAvailAll(avail, es[..|es| - 1], node), es[|es| - 1].fileID, node, f, h);
      RemoveAllFrom(avail, es[..|es| - 1], node, f, h);
    }
  }

  lemma {:induction false} PutBatchFrom(db: Db, peer: Id, batch: seq<Entry>, now: int, f: Id, h: OwnerHint)
    requires IndexOk(db.avail)
    ensures h in HintsOf(PutBatch(db, peer, batch, now).avail, f) <==>
              if h.nodeID == peer && ListedLive(batch, f) then h.seenAt == now else h in HintsOf(db.avail, f)
  {
    if batch != [] {
      var k := |batch| - 1;
      PutBatchFrom(db, peer, batch[..k], now, f, h);
      PutBatchHints(db, peer, batch[..k], now, f, peer);
      AddAvailFrom(PutBatch(db, peer, batch[..k], now).avail, batch[k].fileID, peer, now, f, h);
      ListedLiveSnoc(batch, f);
    }
  }

  // ---- every run ----

  /** The operation sees node n with file f: a local put of f at this node, or an accepted
      batch of n that lists f live. */
  ghost predicate Sees(self: Id, op: Op, f: Id, n: Id) {
    match op
    case PutLocalOp(e, _) => n == self && e.fileID == f && Encodable(e.modTime)
    case PutPeerOp(peer, batch, _) => n == peer && BatchEncodable(batch) && ListedLive(batch, f)
    case _ => false
  }

  /** When node n was last seen with file f. */
  ghost function LastSeen(self: Id, ops: seq<Op>, f: Id, n: Id): Option<int> {
    if ops == [] then None
    else
      var last := ops[|ops| - 1];
      if (last.PutLocalOp? || last.PutPeerOp?) && Sees(self, last, f, n) then Some(last.now)
      else LastSeen(self, ops[..|ops| - 1], f, n)
  }

  /** A hint is new with the operation that sees its node, or was there before. */
  lemma HintStep(db: Db, self: Id, op: Op, f: Id, h: OwnerHint)
    requires IndexOk(db.avail) && h in HintsOf(Apply(db, self, op).avail, f)
    ensures if (op.PutLocalOp? || op.PutPeerOp?) && Sees(self, op, f, h.nodeID) then h.seenAt == op.now
            else h in HintsOf(db.avail, f)
  {
    match op
    case PutLocalOp(e, now) => AddAvailFrom(db.avail, e.fileID, self, now, f, h);
    case DeleteLocalOp(g, now) => RemoveAvailFrom(db.avail, g, self, f, h);
    case PutPeerOp(peer, batch, now) => PutBatchFrom(ClearPeer(db, peer), peer, batch, now, f, h);
    case RemovePeerOp(peer) => RemoveAllFrom(db.avail, ByOwner(db, peer), peer, f, h);
  }

  /** In every reachable store, the time of each hint is the time its node was last seen
      with the file. */
  lemma {:induction false} HintTimeIsLastSeen(self: Id, ops: seq<Op>, f: Id, h: OwnerHint)
    requires h in HintsOf(Exec(self, ops).avail, f)
    ensures LastSeen(self, ops, f, h.nodeID) == Some(h.seenAt)
  {
    if ops != [] {
      var init, last := ops[..|ops| - 1], ops[|ops| - 1];
      IndexCoversEntries(self, init);
      HintStep(Exec(self, init), self, last, f, h);
      if !((last.PutLocalOp? || last.PutPeerOp?) && Sees(self, last, f, h.nodeID)) {
        HintTimeIsLastSeen(self, init, f, h);
      }
    }
  }

  /** When the entry of node n for file f was last written: put, batch or delete. */
  ghost function LastWritten(self: Id, ops: seq<Op>, n: Id, f: Id): int {
    if ops == [] then 0
    else
      var init, last := ops[..|ops| - 1], ops[|ops| - 1];
      match last
      case PutLocalOp(e, now) => if n == self && e.fileID == f && Encodable(e.modTime) then now else LastWritten(self, init, n, f)
      case DeleteLocalOp(g, now) => if n == self && g == f then now else LastWritten(self, init, n, f)
      case PutPeerOp(peer, batch, now) => if n == peer && BatchEncodable(batch) then now else LastWritten(self, init, n, f)
      case RemovePeerOp(_) => LastWritten(self, init, n, f)
  }

  /** In every reachable store an entry carries its owner, its file and the time it was
      last written. */
  lemma {:induction false} EntryTimeIsLastWrite(self: Id, ops: seq<Op>, n: Id, f: Id)
    requires Lookup(Exec(self, ops), n, f).Some?
    ensures var e := Lookup(Exec(self, ops), n, f).value;
            e.owner == n && e.fileID == f && e.updatedAt == LastWritten(self, ops, n, f)
  {
    IndexCoversEntries(self, ops);
    LookupIsOwn(Exec(self, ops), n, f);
    if ops != [] {
      var init := ops[..|ops| - 1];
      var db := Exec(self, init);
      IndexCoversEntries(self, init);
      match ops[|ops| - 1] {
        case PutLocalOp(e, now) => PutLocalLookup(db, self, e, now, n, f);
        case DeleteLocalOp(g, now) => DeleteLocalLookup(db, self, g, now, n, f);
        case PutPeerOp(peer, batch, now) => PutPeerLookup(db, peer, batch, now, n, f);
        case RemovePeerOp(peer) => RemovePeerLookup(db, peer, n, f);
      }
      if Lookup(db, n, f).Some? {
        EntryTimeIsLastWrite(self, init, n, f);
      }
    }
  }
}
