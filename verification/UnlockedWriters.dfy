/** Several goroutines sending on one connection without a mutex, as RequestRendezvous
    does: header and body are two writes, and those of different senders interleave. */
module UnlockedWriters {
  import opened Basics
  import opened Endian
  import opened Framing
  import opened Writers

  /** `mid` are the senders between the header and the body of their first message. */
  datatype State = State(stream: Bytes, queues: seq<seq<Bytes>>, mid: set<nat>, sent: seq<(nat, Bytes)>)

  datatype Step = Head(writer: nat) | Rest(writer: nat)

  predicate Enabled(c: State, s: Step) {
    && s.writer < |c.queues| && c.queues[s.writer] != []
    && (s.Head? <==> s.writer !in c.mid)
  }

  function Done(c: State, w: nat): State
    requires w < |c.queues| && c.queues[w] != []
  {
    c.(queues := c.queues[w := c.queues[w][1..]], mid := c.mid - {w}, sent := c.sent + [(w, c.queues[w][0])])
  }

  /** An oversized message is refused before it is written, and the write of an empty
      body puts nothing on the stream. */
  function Effect(c: State, s: Step): State
    requires Enabled(c, s)
  {
    var w := s.writer;
    var m := c.queues[w][0];
    if s.Rest? then Done(c, w).(stream := c.stream + m)
    else if !Fits(m) then c.(queues := c.queues[w := c.queues[w][1..]])
    else
      var c' := c.(stream := c.stream + BE(|m|, 4));
      if m == [] then Done(c', w) else c'.(mid := c.mid + {w})
  }

  function Apply(c: State, s: Step): State {
    if Enabled(c, s) then Effect(c, s) else c
  }

  function Exec(start: seq<seq<Bytes>>, run: seq<Step>): State {
    if run == [] then State([], start, {}, []) else Apply(Exec(start, run[..|run| - 1]), run[|run| - 1])
  }

  /** The step writes while another sender is between header and body. */
  predicate Cuts(c: State, s: Step) {
    && Enabled(c, s) && (s.Head? ==> Fits(c.queues[s.writer][0]))
    && exists v :: v in c.mid && v != s.writer
  }

  ghost predicate NeverCut(start: seq<seq<Bytes>>, run: seq<Step>) {
    run != [] ==> NeverCut(start, run[..|run| - 1]) && !Cuts(Exec(start, run[..|run| - 1]), run[|run| - 1])
  }

  /** A marshalled envelope starts with a field tag, which is not zero. */
  predicate Proper(m: Bytes) { m == [] || m[0] != 0 }

  ghost predicate AllProper(queues: seq<seq<Bytes>>) {
    forall w, i :: 0 <= w < |queues| && 0 <= i < |queues[w]| ==> Proper(queues[w][i])
  }

  /** A merge of the senders' sequences that keeps each sender's order. */
  ghost predicate Merge(ms: seq<(nat, Bytes)>, start: seq<seq<Bytes>>) {
    && (forall i :: 0 <= i < |ms| ==> ms[i].0 < |start|)
    && forall w: nat :: w < |start| ==> SentBy(ms, w) <= Filter(start[w], FitsF())
  }

  /** The bytes so far are the beginning of such a merge. */
  ghost predicate Mergeable(c: State, start: seq<seq<Bytes>>) {
    exists ms: seq<(nat, Bytes)> :: Merge(ms, start) && c.stream <= Encode(Payloads(ms))
  }

  // ---- no cut: the stream is a merge ----

  ghost predicate Tidy(c: State, start: seq<seq<Bytes>>) {
    && |c.queues| == |start| && AllFit(Payloads(c.sent))
    && (forall i :: 0 <= i < |c.sent| ==> c.sent[i].0 < |start|)
    && (forall w: nat :: w < |start| ==> SentBy(c.sent, w) + Filter(c.queues[w], FitsF()) == Filter(start[w], FitsF()))
    && (c.mid == {} ==> c.stream == Encode(Payloads(c.sent)))
    && (forall v :: v in c.mid ==> c.mid == {v} && Middle(c, v))
  }

  predicate Middle(c: State, v: nat) {
    && v < |c.queues| && c.queues[v] != [] && c.queues[v][0] != [] && Fits(c.queues[v][0])
    && c.stream == Encode(Payloads(c.sent)) + BE(|c.queues[v][0]|, 4)
  }

  lemma EncodeSnoc(sent: seq<(nat, Bytes)>, w: nat, m: Bytes)
    ensures Encode(Payloads(sent + [(w, m)])) == Encode(Payloads(sent)) + Frame(m)
  {
    PayloadsSnoc(sent, w, m);
    EncodeAppend(Payloads(sent), [m]);
    EncodeOne(m);
  }

  lemma DoneOrdered(c: State, w: nat, start: seq<seq<Bytes>>, v: nat)
    requires |c.queues| == |start| && w < |start| && v < |start| && c.queues[w] != [] && Fits(c.queues[w][0])
    requires SentBy(c.sent, v) + Filter(c.queues[v], FitsF()) == Filter(start[v], FitsF())
    ensures SentBy(Done(c, w).sent, v) + Filter(Done(c, w).queues[v], FitsF()) == Filter(start[v], FitsF())
  {
    var m := c.queues[w][0];
    SentBySnoc(c.sent, w, m, v);
    if v == w {
      FilterHead(c.queues[w]);
      Assoc(SentBy(c.sent, w), [m], Filter(c.queues[w][1..], FitsF()));
    } else {
      assert SentBy(c.sent, v) + [] == SentBy(c.sent, v);
    }
  }

  lemma TidyDone(c: State, w: nat, start: seq<seq<Bytes>>, stream: Bytes)
    requires Tidy(c, start) && w < |start| && c.queues[w] != [] && Fits(c.queues[w][0])
    requires c.mid == {} || c.mid == {w}
    requires stream == Encode(Payloads(c.sent)) + Frame(c.queues[w][0])
    ensures Tidy(Done(c, w).(stream := stream), start)
  {
    var m := c.queues[w][0];
    EncodeSnoc(c.sent, w, m);
    PayloadsSnoc(c.sent, w, m);
    forall v: nat | v < |start|
      ensures SentBy(Done(c, w).sent, v) + Filter(Done(c, w).queues[v], FitsF()) == Filter(start[v], FitsF())
    {
      DoneOrdered(c, w, start, v);
    }
    assert Done(c, w).mid == {};
  }

  lemma TidySkip(c: State, w: nat, start: seq<seq<Bytes>>)
    requires Tidy(c, start) && w < |start| && c.queues[w] != [] && !Fits(c.queues[w][0]) && w !in c.mid
    ensures Tidy(c.(queues := c.queues[w := c.queues[w][1..]]), start)
  {
    FilterHead(c.queues[w]);
    assert [] + Filter(c.queues[w][1..], FitsF()) == Filter(c.queues[w][1..], FitsF());
  }

  lemma TidyStep(c: State, s: Step, start: seq<seq<Bytes>>)
    requires Tidy(c, start) && !Cuts(c, s)
    ensures Tidy(Apply(c, s), start)
  {
    if Enabled(c, s) {
      var w := s.writer;
      var m := c.queues[w][0];
      if s.Rest? {
        Assoc(Encode(Payloads(c.sent)), BE(|m|, 4), m);
        TidyDone(c, w, start, c.stream + m);
      } else if !Fits(m) {
        TidySkip(c, w, start);
      } else {
        assert c.mid == {};
        if m == [] {
          assert Frame(m) == BE(0, 4);
          TidyDone(c, w, start, c.stream + BE(|m|, 4));
        }
      }
    }
  }

  lemma {:induction false} NeverCutIsTidy(start: seq<seq<Bytes>>, run: seq<Step>)
    requires NeverCut(start, run)
    ensures Tidy(Exec(start, run), start)
  {
    if run == [] {
      forall w: nat | w < |start|
        ensures SentBy([], w) + Filter(start[w], FitsF()) == Filter(start[w], FitsF())
      {
        assert [] + Filter(start[w], FitsF()) == Filter(start[w], FitsF());
      }
    } else {
      NeverCutIsTidy(start, run[..|run| - 1]);
      TidyStep(Exec(start, run[..|run| - 1]), run[|run| - 1], start);
    }
  }

  lemma MidMerges(c: State, start: seq<seq<Bytes>>, v: nat)
    requires Tidy(c, start) && v in c.mid
    ensures Merge(c.sent + [(v, c.queues[v][0])], start)
    ensures c.stream <= Encode(Payloads(c.sent + [(v, c.queues[v][0])]))
  {
    var m := c.queues[v][0];
    EncodeSnoc(c.sent, v, m);
    Assoc(Encode(Payloads(c.sent)), BE(|m|, 4), m);
    forall w: nat | w < |start|
      ensures SentBy(c.sent + [(v, m)], w) <= Filter(start[w], FitsF())
    {
      SentBySnoc(c.sent, v, m, w);
      FilterHead(c.queues[v]);
      assert SentBy(c.sent, w) + [] == SentBy(c.sent, w);
    }
  }

  lemma TidyMergeable(c: State, start: seq<seq<Bytes>>)
    requires Tidy(c, start)
    ensures Mergeable(c, start)
  {
    if v :| v in c.mid {
      MidMerges(c, start, v);
    } else {
      assert Merge(c.sent, start);
    }
  }

  // ---- a cut: the stream is no merge and never becomes one again ----

  /** A size below 4 MiB has a zero as its first byte. */
  lemma ZeroFirst(n: nat)
    requires n <= MAX_MSG_SIZE
    ensures BE(n, 4)[0] == 0
  {
    BytesOf(n);
  }

  /** Equal headers mean equal sizes. */
  lemma SameHeader(s: Bytes, ms: seq<Bytes>, h: nat)
    requires ms != [] && AllFit(ms) && h <= MAX_MSG_SIZE && |s| >= 4 && s[..4] == BE(h, 4) && s <= Encode(ms)
    ensures |ms[0]| == h
    ensures h > 0 && |s| > 4 ==> s[4] == ms[0][0]
  {
    Powers();
    ReadBack(h, 4);
    ReadBack(|ms[0]|, 4);
    assert Encode(ms) == Frame(ms[0]) + Encode(ms[1..]);
    assert s[..4] == Encode(ms)[..4] == BE(|ms[0]|, 4);
    if h > 0 && |s| > 4 {
      assert s[4] == Encode(ms)[4] == Frame(ms[0])[4];
    }
  }

  /** The first frame of s is the first message of ms, and the rest follows the rest. */
  lemma SameFirst(d: Bytes, rest: Bytes, ms: seq<Bytes>)
    requires ms != [] && AllFit(ms) && Fits(d) && Frame(d) + rest <= Encode(ms)
    ensures rest <= Encode(ms[1..])
  {
    var s := Frame(d) + rest;
    assert s[..4] == BE(|d|, 4);
    SameHeader(s, ms, |d|);
    assert Encode(ms) == Frame(ms[0]) + Encode(ms[1..]);
    assert s[4 + |d|..] == rest && Encode(ms)[4 + |d|..] == Encode(ms[1..]);
  }

  /** After whole frames and the header of a non-empty message, a zero byte fits no
      sequence of proper messages. */
  lemma {:induction false} ZeroFitsNowhere(done: seq<Bytes>, n: nat, ms: seq<Bytes>)
    requires AllFit(done) && AllFit(ms) && 0 < n <= MAX_MSG_SIZE && forall i :: 0 <= i < |ms| ==> Proper(ms[i])
    ensures !(Encode(done) + BE(n, 4) + [0] <= Encode(ms))
  {
    var s := Encode(done) + BE(n, 4) + [0];
    if ms != [] {
      if done == [] {
        assert s[..4] == BE(n, 4) && s[4] == 0;
        if s <= Encode(ms) {
          SameHeader(s, ms, n);
        }
      } else {
        var rest := Encode(done[1..]) + BE(n, 4) + [0];
        assert s == Frame(done[0]) + rest;
        ZeroFitsNowhere(done[1..], n, ms[1..]);
        if s <= Encode(ms) {
          SameFirst(done[0], rest, ms);
        }
      }
    }
  }

  lemma MergePayload(ms: seq<(nat, Bytes)>, start: seq<seq<Bytes>>, i: nat)
    requires Merge(ms, start) && AllProper(start) && i < |ms|
    ensures Fits(ms[i].1) && Proper(ms[i].1)
  {
    var w := ms[i].0;
    var j := FilterImage(ms, By(w), i);
    assert SentBy(ms, w)[j] == ms[i].1;
    var k := FilterOrigin(start[w], FitsF(), j);
  }

  lemma CutNotMergeable(c: State, s: Step, start: seq<seq<Bytes>>)
    requires Tidy(c, start) && Cuts(c, s) && AllProper(start)
    ensures !Mergeable(Apply(c, s), start)
  {
    var v :| v in c.mid && v != s.writer;
    var n, m := |c.queues[v][0]|, c.queues[s.writer][0];
    var done := Payloads(c.sent);
    ZeroFirst(|m|);
    var c' := Apply(c, s);
    assert c'.stream == Encode(done) + BE(n, 4) + BE(|m|, 4);
    assert Encode(done) + BE(n, 4) + [0] <= c'.stream;
    forall ms: seq<(nat, Bytes)> | Merge(ms, start)
      ensures !(c'.stream <= Encode(Payloads(ms)))
    {
      forall i | 0 <= i < |ms|
        ensures Fits(Payloads(ms)[i]) && Proper(Payloads(ms)[i])
      {
        MergePayload(ms, start, i);
      }
      ZeroFitsNowhere(done, n, Payloads(ms));
    }
  }

  lemma StaysUnmergeable(c: State, s: Step, start: seq<seq<Bytes>>)
    requires !Mergeable(c, start)
    ensures !Mergeable(Apply(c, s), start)
  {
    assert c.stream <= Apply(c, s).stream;
  }

  /** For messages whose first byte is not zero: the bytes on the connection are the
      beginning of a merge of the senders' sequences if and only if no write ever landed
      between the header and the body of a non-empty message. */
  lemma {:induction false} MergeIffNeverCut(start: seq<seq<Bytes>>, run: seq<Step>)
    requires AllProper(start)
    ensures Mergeable(Exec(start, run), start) <==> NeverCut(start, run)
  {
    if run == [] {
      NeverCutIsTidy(start, run);
      TidyMergeable(Exec(start, run), start);
    } else {
      var init, s := run[..|run| - 1], run[|run| - 1];
      MergeIffNeverCut(start, init);
      if !NeverCut(start, init) {
        StaysUnmergeable(Exec(start, init), s, start);
      } else {
        NeverCutIsTidy(start, init);
        if Cuts(Exec(start, init), s) {
          CutNotMergeable(Exec(start, init), s, start);
        } else {
          TidyStep(Exec(start, init), s, start);
          TidyMergeable(Exec(start, run), start);
        }
      }
    }
  }

  /** Without a cut the reader gets exactly the messages completed, in order. */
  lemma NeverCutReads(start: seq<seq<Bytes>>, run: seq<Step>)
    requires NeverCut(start, run)
    ensures var c := Exec(start, run);
            && Merge(c.sent, start) && ReadAll(c.stream).0 == Payloads(c.sent)
            && (ReadAll(c.stream).1.EndOfStream? || ReadAll(c.stream).1.ShortBody?)
  {
    var c := Exec(start, run);
    NeverCutIsTidy(start, run);
    assert ReadAll([]).0 == [];
    if v :| v in c.mid {
      var m := c.queues[v][0];
      assert Frame(m)[..4] == BE(|m|, 4);
      ReadTorn(m, 4);
      ReadsThrough(Payloads(c.sent), BE(|m|, 4));
    } else {
      assert Encode(Payloads(c.sent)) + [] == c.stream;
      ReadsThrough(Payloads(c.sent), []);
    }
  }

  /** After a cut, whatever is written later: the next message the reader gets, if any,
      starts with a zero byte, so nobody sent it. */
  lemma UnlockedWritesCorrupt(done: seq<Bytes>, a: Bytes, b: Bytes, tail: Bytes)
    requires AllFit(done) && Fits(a) && Fits(b) && a != []
    ensures var read := ReadAll(Encode(done) + (BE(|a|, 4) + BE(|b|, 4) + tail)).0;
            && done <= read
            && (|a| <= 4 + |tail| ==> |read| > |done|)
            && (|read| > |done| ==> !Proper(read[|done|]))
  {
    var s := BE(|a|, 4) + BE(|b|, 4) + tail;
    ReadsThrough(done, s);
    ZeroFirst(|b|);
    Powers();
    ReadBack(|a|, 4);
    assert s[..4] == BE(|a|, 4) && s[4] == 0;
    var r := ReadFrame(s);
    if r.Msg? {
      assert r.data[0] == s[4];
      assert ReadAll(s).0[0] == r.data;
    }
  }

  lemma ExecSnoc(start: seq<seq<Bytes>>, run: seq<Step>, s: Step)
    ensures Exec(start, run + [s]) == Apply(Exec(start, run), s)
  {
    assert (run + [s])[..|run|] == run;
  }

  lemma {:induction false} CutStays(start: seq<seq<Bytes>>, run: seq<Step>, more: seq<Step>)
    requires !NeverCut(start, run)
    ensures !NeverCut(start, run + more)
    decreases |more|
  {
    if more == [] {
      assert run + more == run;
    } else {
      CutStays(start, run, more[..|more| - 1]);
      assert (run + more)[..|run + more| - 1] == run + more[..|more| - 1];
    }
  }

  /** Two requests whose headers go out one after the other: whatever follows, the
      connection never carries a merge of the two again. */
  lemma InterleavedHeaders(a: Bytes, b: Bytes, more: seq<Step>)
    requires a != [] && Fits(a) && Fits(b) && Proper(a) && Proper(b)
    ensures !Mergeable(Exec([[a], [b]], [Head(0)] + [Head(1)] + more), [[a], [b]])
  {
    var start := [[a], [b]];
    ExecSnoc(start, [], Head(0));
    var run := [] + [Head(0)];
    var c := Exec(start, run);
    assert 0 in c.mid && Cuts(c, Head(1));
    assert ([Head(0)] + [Head(1)])[..1] == run;
    CutStays(start, [Head(0)] + [Head(1)], more);
    MergeIffNeverCut(start, [Head(0)] + [Head(1)] + more);
  }
}
