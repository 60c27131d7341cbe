/** Several goroutines sending on one connection: each message is two writes, made
    under the connection's send mutex. */
module Writers {
  import opened Basics
  import opened Endian
  import opened Framing

  /** What the holder of the mutex writes next. */
  datatype Stage = Header | Body | Finished

  datatype Holder = Nobody | Held(writer: nat, stage: Stage)

  /** `sent` records which writer completed which message, in order. A failed write
      breaks the stream for good. */
  datatype Conn = Conn(
    stream: Bytes,
    holder: Holder,
    queues: seq<seq<Bytes>>,
    broken: bool,
    sent: seq<(nat, Bytes)>)

  /** Write(n): the transport accepts n bytes of the write; fewer than asked is a failure. */
  datatype Step = Lock(writer: nat) | Write(n: nat) | Unlock

  predicate Ready(c: Conn, w: nat) {
    w < |c.queues| && c.queues[w] != []
  }

  /** The message the holder is sending. */
  function Current(c: Conn): Bytes
    requires c.holder.Held? && Ready(c, c.holder.writer)
  {
    c.queues[c.holder.writer][0]
  }

  function Pop(c: Conn, w: nat): Conn
    requires Ready(c, w)
  {
    c.(queues := c.queues[w := c.queues[w][1..]])
  }

  /** A failed write: what was accepted stays on the stream and the send gives up. */
  function Fail(c: Conn, piece: Bytes): Conn
    requires c.holder.Held? && Ready(c, c.holder.writer)
  {
    Pop(c, c.holder.writer).(stream := c.stream + piece, broken := true, holder := c.holder.(stage := Finished))
  }

  function WriteStep(c: Conn, n: nat): Conn
    requires c.holder.Held? && !c.holder.stage.Finished? && Ready(c, c.holder.writer)
  {
    var m := Current(c);
    var piece := if c.holder.stage.Header? then BE(|m|, 4) else m;
    if c.broken then Fail(c, [])
    else if c.holder.stage.Header? && !Fits(m) then Pop(c, c.holder.writer).(holder := c.holder.(stage := Finished))
    else if n < |piece| then Fail(c, piece[..n])
    else if c.holder.stage.Header? then c.(stream := c.stream + piece, holder := c.holder.(stage := Body))
    else Pop(c, c.holder.writer).(stream := c.stream + piece, holder := c.holder.(stage := Finished),
                                  sent := c.sent + [(c.holder.writer, m)])
  }

  function Apply(c: Conn, s: Step): Conn {
    match s
    case Lock(w) => if c.holder.Nobody? && Ready(c, w) then c.(holder := Held(w, Header)) else c
    case Write(n) =>
      if c.holder.Held? && !c.holder.stage.Finished? && Ready(c, c.holder.writer) then WriteStep(c, n) else c
    case Unlock => if c.holder.Held? && c.holder.stage.Finished? then c.(holder := Nobody) else c
  }

  function Start(queues: seq<seq<Bytes>>): Conn {
    Conn([], Nobody, queues, false, [])
  }

  function Exec(queues: seq<seq<Bytes>>, run: seq<Step>): Conn {
    if run == [] then Start(queues) else Apply(Exec(queues, run[..|run| - 1]), run[|run| - 1])
  }

  // ---- the stream is whole frames and at most one torn one ----

  function Payload(): ((nat, Bytes)) -> Bytes { (p: (nat, Bytes)) => p.1 }

  function Payloads(sent: seq<(nat, Bytes)>): seq<Bytes> { Map(sent, Payload()) }

  lemma PayloadsSnoc(sent: seq<(nat, Bytes)>, w: nat, m: Bytes)
    ensures Payloads(sent + [(w, m)]) == Payloads(sent) + [m]
  {
    MapAppend(sent, [(w, m)], Payload());
  }

  /** A proper piece of a frame. */
  ghost predicate Torn(tail: Bytes) {
    exists m: Bytes, k: nat :: Fits(m) && k < |Frame(m)| && tail == Frame(m)[..k]
  }

  ghost predicate StreamIs(c: Conn, tail: Bytes) {
    c.stream == Encode(Payloads(c.sent)) + tail
  }

  ghost predicate Framed(c: Conn) {
    && AllFit(Payloads(c.sent))
    && (c.holder.Held? && !c.holder.stage.Finished? ==> Ready(c, c.holder.writer))
    && if c.broken then exists tail: Bytes :: StreamIs(c, tail) && Torn(tail)
       else if c.holder.Held? && c.holder.stage.Body?
            then Fits(Current(c)) && StreamIs(c, BE(|Current(c)|, 4))
            else StreamIs(c, [])
  }

  lemma FailFramed(c: Conn, n: nat)
    requires Framed(c) && !c.broken && c.holder.Held? && !c.holder.stage.Finished?
    requires var m := Current(c);
             Fits(m) && n < |if c.holder.stage.Header? then BE(|m|, 4) else m|
    ensures var m := Current(c);
            Framed(Fail(c, (if c.holder.stage.Header? then BE(|m|, 4) else m)[..n]))
  {
    var m := Current(c);
    var base := Encode(Payloads(c.sent));
    var c' := Fail(c, (if c.holder.stage.Header? then BE(|m|, 4) else m)[..n]);
    var k := if c.holder.stage.Header? then n else 4 + n;
    assert c'.stream == base + Frame(m)[..k];
    assert StreamIs(c', Frame(m)[..k]) && Torn(Frame(m)[..k]);
  }

  lemma DoneFramed(c: Conn, n: nat)
    requires Framed(c) && !c.broken && c.holder.Held? && c.holder.stage.Body? && n >= |Current(c)|
    ensures Framed(WriteStep(c, n))
  {
    var m := Current(c);
    var base := Encode(Payloads(c.sent));
    PayloadsSnoc(c.sent, c.holder.writer, m);
    EncodeAppend(Payloads(c.sent), [m]);
    EncodeOne(m);
    assert base + BE(|m|, 4) + m == base + Frame(m) + [];
  }

  lemma StepFramed(c: Conn, s: Step)
    requires Framed(c)
    ensures Framed(Apply(c, s))
  {
    if s.Write? && c.holder.Held? && !c.holder.stage.Finished? {
      var m := Current(c);
      if c.broken {
        BrokenFramed(c, Apply(c, s));
      } else if c.holder.stage.Header? && !Fits(m) {
      } else if s.n < |if c.holder.stage.Header? then BE(|m|, 4) else m| {
        FailFramed(c, s.n);
      } else if c.holder.stage.Header? {
        assert Encode(Payloads(c.sent)) + [] + BE(|m|, 4) == Encode(Payloads(c.sent)) + BE(|m|, 4);
      } else {
        DoneFramed(c, s.n);
      }
    } else if c.broken {
      BrokenFramed(c, Apply(c, s));
    }
  }

  /** Nothing more reaches a broken stream. */
  lemma BrokenFramed(c: Conn, c': Conn)
    requires Framed(c) && c.broken && c'.broken && c'.sent == c.sent
    requires c'.stream == c.stream || c'.stream == c.stream + []
    requires c'.holder.Held? && !c'.holder.stage.Finished? ==> Ready(c', c'.holder.writer)
    ensures Framed(c')
  {
    var tail: Bytes :| StreamIs(c, tail) && Torn(tail);
    assert c.stream + [] == c.stream;
    assert StreamIs(c', tail);
  }

  lemma {:induction false} AlwaysFramed(queues: seq<seq<Bytes>>, run: seq<Step>)
    ensures Framed(Exec(queues, run))
  {
    if run == [] {
      assert StreamIs(Start(queues), []);
    } else {
      AlwaysFramed(queues, run[..|run| - 1]);
      StepFramed(Exec(queues, run[..|run| - 1]), run[|run| - 1]);
    }
  }

  /** A send that the transport accepts in full puts the whole frame on the stream. */
  lemma SendCompletes(c: Conn, w: nat, n: nat, k: nat)
    requires c.holder.Nobody? && !c.broken && Ready(c, w) && Fits(c.queues[w][0]) && n >= 4 && k >= |c.queues[w][0]|
    ensures var m := c.queues[w][0];
            Apply(Apply(Apply(Apply(c, Lock(w)), Write(n)), Write(k)), Unlock) ==
              Conn(c.stream + Frame(m), Nobody, c.queues[w := c.queues[w][1..]], false, c.sent + [(w, m)])
  {
    var m := c.queues[w][0];
    Assoc(c.stream, BE(|m|, 4), m);
  }

  /** The transport accepts less of a header or a body than was asked. */
  predicate Short(c: Conn, s: Step) {
    && s.Write? && c.holder.Held? && !c.holder.stage.Finished? && Ready(c, c.holder.writer) && !c.broken
    && Fits(Current(c)) && s.n < if c.holder.stage.Header? then 4 else |Current(c)|
  }

  predicate SomeShort(queues: seq<seq<Bytes>>, run: seq<Step>) {
    run != [] && (SomeShort(queues, run[..|run| - 1]) || Short(Exec(queues, run[..|run| - 1]), run[|run| - 1]))
  }

  /** The stream is broken if and only if some write was cut short. */
  lemma {:induction false} BrokenIffShort(queues: seq<seq<Bytes>>, run: seq<Step>)
    ensures Exec(queues, run).broken <==> SomeShort(queues, run)
  {
    if run != [] {
      BrokenIffShort(queues, run[..|run| - 1]);
      AlwaysFramed(queues, run[..|run| - 1]);
    }
  }

  // ---- every writer's messages keep their order ----

  function By(w: nat): ((nat, Bytes)) -> bool { (p: (nat, Bytes)) => p.0 == w }

  /** What writer w has completed. */
  function SentBy(sent: seq<(nat, Bytes)>, w: nat): seq<Bytes> {
    Payloads(Filter(sent, By(w)))
  }

  function FitsF(): Bytes -> bool { (m: Bytes) => Fits(m) }

  lemma SentBySnoc(sent: seq<(nat, Bytes)>, v: nat, m: Bytes, w: nat)
    ensures SentBy(sent + [(v, m)], w) == SentBy(sent, w) + if v == w then [m] else []
  {
    FilterAppend(sent, [(v, m)], By(w));
    assert Filter([(v, m)], By(w)) == if v == w then [(v, m)] else [];
    MapAppend(Filter(sent, By(w)), Filter([(v, m)], By(w)), Payload());
  }

  /** Completed messages are a prefix of the writer's sendable ones, and all of those
      not still queued unless the stream broke. */
  ghost predicate Ordered(c: Conn, start: seq<seq<Bytes>>, w: nat)
    requires |c.queues| == |start| && w < |start|
  {
    && SentBy(c.sent, w) <= Filter(start[w], FitsF())
    && (!c.broken ==> SentBy(c.sent, w) + Filter(c.queues[w], FitsF()) == Filter(start[w], FitsF()))
  }

  lemma FilterHead(q: seq<Bytes>)
    requires q != []
    ensures Filter(q, FitsF()) == (if Fits(q[0]) then [q[0]] else []) + Filter(q[1..], FitsF())
  {
  }

  /** A write leaves the queues alone or pops the holder's; it completes the message,
      drops an oversized one, or breaks the stream. */
  lemma WriteEffect(c: Conn, n: nat)
    requires Framed(c) && c.holder.Held? && !c.holder.stage.Finished?
    ensures var c', v, m := WriteStep(c, n), c.holder.writer, Current(c);
            || (c'.queues == c.queues && c'.sent == c.sent && c'.broken == c.broken)
            || (c'.queues == c.queues[v := c.queues[v][1..]]
                && ((c'.sent == c.sent && (c'.broken || (!Fits(m) && c'.broken == c.broken)))
                    || (c'.sent == c.sent + [(v, m)] && Fits(m) && c'.broken == c.broken == false)))
  {
  }

  lemma StepOrdered(c: Conn, s: Step, start: seq<seq<Bytes>>, w: nat)
    requires Framed(c) && |c.queues| == |start| && w < |start| && Ordered(c, start, w)
    ensures |Apply(c, s).queues| == |start| && Ordered(Apply(c, s), start, w)
  {
    if s.Write? && c.holder.Held? && !c.holder.stage.Finished? {
      var v, m := c.holder.writer, Current(c);
      SentBySnoc(c.sent, v, m, w);
      FilterHead(c.queues[v]);
      Assoc(SentBy(c.sent, w), [m], Filter(c.queues[v][1..], FitsF()));
      WriteEffect(c, s.n);
    }
  }

  lemma {:induction false} AlwaysOrdered(queues: seq<seq<Bytes>>, run: seq<Step>, w: nat)
    requires w < |queues|
    ensures |Exec(queues, run).queues| == |queues| && Ordered(Exec(queues, run), queues, w)
  {
    if run == [] {
      assert [] + Filter(queues[w], FitsF()) == Filter(queues[w], FitsF());
    } else {
      AlwaysOrdered(queues, run[..|run| - 1], w);
      AlwaysFramed(queues, run[..|run| - 1]);
      StepOrdered(Exec(queues, run[..|run| - 1]), run[|run| - 1], queues, w);
    }
  }

  // ---- the reader's view ----

  /** The header of an empty message is already its whole frame. */
  predicate EmptyUnderWay(c: Conn) {
    !c.broken && c.holder.Held? && c.holder.stage.Body? && Ready(c, c.holder.writer) && Current(c) == []
  }

  /** The messages on the stream, each with its writer. */
  function View(c: Conn): seq<(nat, Bytes)> {
    c.sent + if EmptyUnderWay(c) then [(c.holder.writer, [])] else []
  }

  lemma ReadsAs(c: Conn, tail: Bytes)
    requires Framed(c) && StreamIs(c, tail) && ReadAll(tail).0 == []
    ensures ReadAll(c.stream).0 == Payloads(c.sent) && ReadAll(c.stream).1 == ReadAll(tail).1
  {
    ReadsThrough(Payloads(c.sent), tail);
  }

  lemma ReadView(c: Conn)
    requires Framed(c)
    ensures ReadAll(c.stream).0 == Payloads(View(c))
    ensures ReadAll(c.stream).1.EndOfStream? || ReadAll(c.stream).1.ShortBody?
  {
    assert ReadAll([]).0 == [];
    if c.broken {
      var tail: Bytes :| StreamIs(c, tail) && Torn(tail);
      var m: Bytes, k: nat :| Fits(m) && k < |Frame(m)| && tail == Frame(m)[..k];
      ReadTorn(m, k);
      ReadsAs(c, tail);
      assert c.sent + [] == c.sent;
    } else if EmptyUnderWay(c) {
      PayloadsSnoc(c.sent, c.holder.writer, []);
      var seen := Payloads(View(c));
      EncodeAppend(Payloads(c.sent), [[]]);
      EncodeOne([]);
      assert c.stream == Encode(seen) + [];
      ReadsThrough(seen, []);
    } else if c.holder.Held? && c.holder.stage.Body? {
      var m := Current(c);
      assert BE(|m|, 4) == Frame(m)[..4];
      ReadTorn(m, 4);
      ReadsAs(c, BE(|m|, 4));
      assert c.sent + [] == c.sent;
    } else {
      ReadsAs(c, []);
      assert c.sent + [] == c.sent;
    }
  }

  lemma ViewOrdered(c: Conn, start: seq<seq<Bytes>>, w: nat)
    requires Framed(c) && |c.queues| == |start| && w < |start| && Ordered(c, start, w)
    ensures SentBy(View(c), w) <= Filter(start[w], FitsF())
  {
    if EmptyUnderWay(c) {
      SentBySnoc(c.sent, c.holder.writer, [], w);
      FilterHead(c.queues[c.holder.writer]);
    } else {
      assert c.sent + [] == c.sent;
    }
  }

  /** In every interleaving, also one cut off by a failed write, the bytes on the
      connection parse to whole messages and then an end or a torn frame; the messages
      are a merge of the writers' sequences that keeps each writer's order, and loses
      none that fits as long as no write failed. */
  lemma StreamIsAMerge(queues: seq<seq<Bytes>>, run: seq<Step>, w: nat)
    requires w < |queues|
    ensures var c := Exec(queues, run);
            && ReadAll(c.stream).0 == Payloads(View(c))
            && (ReadAll(c.stream).1.EndOfStream? || ReadAll(c.stream).1.ShortBody?)
            && |c.queues| == |queues|
            && SentBy(View(c), w) <= Filter(queues[w], FitsF())
            && (!c.broken && c.holder.Nobody? ==>
                  SentBy(View(c), w) + Filter(c.queues[w], FitsF()) == Filter(queues[w], FitsF()))
  {
    var c := Exec(queues, run);
    AlwaysFramed(queues, run);
    AlwaysOrdered(queues, run, w);
    ReadView(c);
    ViewOrdered(c, queues, w);
    if c.holder.Nobody? {
      assert c.sent + [] == c.sent;
    }
  }

  // ---- the framing prime ----

  const PRIME: Bytes := [0, 0, 0, 0]

  /** The dialer's four zero bytes look like an empty message to a reader that does not
      strip them; the acceptor, which does, sees the dialer's stream unchanged. */
  lemma PrimeIsAnEmptyFrame(stream: Bytes)
    ensures (PRIME + stream)[4..] == stream
    ensures ReadAll(PRIME + stream).0 == [[]] + ReadAll(stream).0
    ensures ReadAll(PRIME + stream).1 == ReadAll(stream).1
  {
    BytesOf(0);
    assert PRIME == Frame([]);
    ReadStep([], stream);
  }
}
