/** Length-prefixed frames over a byte stream, read from any truncation of it. */
module Framing {
  import opened Basics
  import opened Endian

  const MAX_MSG_SIZE := 0x40_0000

  predicate Fits(data: Bytes) { |data| <= MAX_MSG_SIZE }

  function Frame(data: Bytes): Bytes { BE(|data|, 4) + data }

  function Encode(ms: seq<Bytes>): Bytes {
    if ms == [] then [] else Frame(ms[0]) + Encode(ms[1..])
  }

  datatype Read =
    | Msg(data: Bytes, rest: Bytes)
    | EndOfStream
    | TooLarge
    | ShortBody

  /** ReadMsg up to unmarshalling: a short header is EOF, a short body an error. */
  function ReadFrame(s: Bytes): Read {
    if |s| < 4 then EndOfStream
    else
      var size := FromBE(s[..4]);
      if size == 0 then Msg([], s[4..])
      else if size > MAX_MSG_SIZE then TooLarge
      else if |s| - 4 < size then ShortBody
      else Msg(s[4..4 + size], s[4 + size..])
  }

  /** Reading until the first error. */
  function ReadAll(s: Bytes): (seq<Bytes>, Read)
    decreases |s|
  {
    var r := ReadFrame(s);
    if r.Msg? then
      var (ms, e) := ReadAll(r.rest);
      ([r.data] + ms, e)
    else ([], r)
  }

  ghost predicate AllFit(ms: seq<Bytes>) {
    forall i :: 0 <= i < |ms| ==> Fits(ms[i])
  }

  lemma HeaderOf(data: Bytes, rest: Bytes)
    requires Fits(data)
    ensures var s := Frame(data) + rest;
            |s| >= 4 && FromBE(s[..4]) == |data|
  {
    Powers();
    ReadBack(|data|, 4);
    assert (Frame(data) + rest)[..4] == BE(|data|, 4);
  }

  /** A whole frame reads back its message and leaves what follows it. */
  lemma ReadWhole(data: Bytes, rest: Bytes)
    requires Fits(data)
    ensures ReadFrame(Frame(data) + rest) == Msg(data, rest)
  {
    HeaderOf(data, rest);
    var s := Frame(data) + rest;
    assert s[4..] == data + rest;
    assert s[4..4 + |data|] == data && s[4 + |data|..] == rest;
  }

  /** A frame cut short: in its header it looks like a clean end, in its body it does not. */
  lemma ReadTorn(data: Bytes, k: nat)
    requires Fits(data) && k < |Frame(data)|
    ensures ReadFrame(Frame(data)[..k]) == if k < 4 then EndOfStream else ShortBody
  {
    if k >= 4 {
      HeaderOf(data, []);
      assert Frame(data) + [] == Frame(data);
      assert Frame(data)[..k][..4] == Frame(data)[..4];
    }
  }

  /** A header above 4 MiB is refused whatever follows it, and nothing else is. */
  lemma LargeHeaderRefused(size: nat, rest: Bytes)
    requires size < 0x1_0000_0000
    ensures ReadFrame(BE(size, 4) + rest) == TooLarge <==> size > 4 * 1024 * 1024
    ensures size > 4 * 1024 * 1024 ==> ReadAll(BE(size, 4) + rest) == ([], TooLarge)
  {
    Powers();
    ReadBack(size, 4);
    assert (BE(size, 4) + rest)[..4] == BE(size, 4);
  }

  lemma {:induction false} EncodeAppend(a: seq<Bytes>, b: seq<Bytes>)
    ensures Encode(a + b) == Encode(a) + Encode(b)
  {
    if a == [] {
      assert a + b == b;
    } else {
      assert (a + b)[1..] == a[1..] + b;
      EncodeAppend(a[1..], b);
    }
  }

  lemma EncodeOne(m: Bytes)
    ensures Encode([m]) == Frame(m)
  {
    assert [m][1..] == [];
  }

  lemma ReadStep(data: Bytes, rest: Bytes)
    requires Fits(data)
    ensures ReadAll(Frame(data) + rest).0 == [data] + ReadAll(rest).0
    ensures ReadAll(Frame(data) + rest).1 == ReadAll(rest).1
  {
    ReadWhole(data, rest);
  }

  /** Frames are self-delimiting: reading an encoded sequence and whatever follows it
      yields the sequence and then goes on with the rest. */
  lemma {:induction false} ReadsThrough(ms: seq<Bytes>, tail: Bytes)
    requires AllFit(ms)
    ensures ReadAll(Encode(ms) + tail).0 == ms + ReadAll(tail).0
    ensures ReadAll(Encode(ms) + tail).1 == ReadAll(tail).1
  {
    if ms == [] {
      assert Encode(ms) + tail == tail;
      assert ms + ReadAll(tail).0 == ReadAll(tail).0;
    } else {
      ReadsThrough(ms[1..], tail);
      Assoc(Frame(ms[0]), Encode(ms[1..]), tail);
      ReadStep(ms[0], Encode(ms[1..]) + tail);
      Assoc([ms[0]], ms[1..], ReadAll(tail).0);
      assert ms == [ms[0]] + ms[1..];
    }
  }

  /** The number of frames that lie wholly within the first k bytes. */
  function Whole(ms: seq<Bytes>, k: nat): (j: nat)
    ensures j <= |ms|
    ensures |Encode(ms[..j])| <= k
    ensures j < |ms| ==> k < |Encode(ms[..j])| + |Frame(ms[j])|
  {
    if ms == [] || k < |Frame(ms[0])| then 0
    else
      var j := Whole(ms[1..], k - |Frame(ms[0])|);
      assert ms[..j + 1][1..] == ms[1..][..j];
      j + 1
  }

  lemma WholeStep(ms: seq<Bytes>, k: nat)
    requires ms != [] && k >= |Frame(ms[0])|
    ensures var i := Whole(ms[1..], k - |Frame(ms[0])|);
            && Whole(ms, k) == i + 1
            && ms[..i + 1] == [ms[0]] + ms[1..][..i]
            && |Encode(ms[..i + 1])| == |Frame(ms[0])| + |Encode(ms[1..][..i])|
  {
    var i := Whole(ms[1..], k - |Frame(ms[0])|);
    assert ms[..i + 1][1..] == ms[1..][..i] && ms[..i + 1][0] == ms[0];
  }

  /** Reading any byte prefix of an encoded sequence gives exactly the messages whose
      frames lie wholly inside it, and then an error: end of stream when the cut is at
      a frame boundary or inside a header, a short body otherwise. */
  lemma {:induction false} TruncatedStream(ms: seq<Bytes>, k: nat)
    requires AllFit(ms) && k <= |Encode(ms)|
    ensures ReadAll(Encode(ms)[..k]).0 == ms[..Whole(ms, k)]
    ensures ReadAll(Encode(ms)[..k]).1 ==
              if k - |Encode(ms[..Whole(ms, k)])| < 4 then EndOfStream else ShortBody
  {
    if ms != [] {
      TakeAppend(Frame(ms[0]), Encode(ms[1..]), k);
      if k < |Frame(ms[0])| {
        ReadTorn(ms[0], k);
        assert ms[..0] == [];
      } else {
        TruncatedStream(ms[1..], k - |Frame(ms[0])|);
        ReadStep(ms[0], Encode(ms[1..])[..k - |Frame(ms[0])|]);
        WholeStep(ms, k);
      }
    }
  }

  // ---- messages ----

  /** Marshalling as the framing uses it; protobuf itself is not modelled. */
  datatype Codec<!E> = Codec(marshal: E -> Bytes, unmarshal: Bytes -> Option<E>, empty: E)

  ghost predicate Inverse<E(!new)>(c: Codec<E>) {
    && (forall e :: c.unmarshal(c.marshal(e)) == Some(e))
    && (forall e :: c.marshal(e) == [] <==> e == c.empty)
  }

  datatype ReadEnvelope<E> = Env(env: E, rest: Bytes) | Failed

  /** ReadMsg: a zero-length frame is the empty envelope. */
  function ReadMsg<E>(c: Codec<E>, s: Bytes): ReadEnvelope<E> {
    match ReadFrame(s)
    case Msg(data, rest) =>
      if data == [] then Env(c.empty, rest)
      else
        var e := c.unmarshal(data);
        if e.Some? then Env(e.value, rest) else Failed
    case _ => Failed
  }

  /** WriteMsg then ReadMsg is the identity, whatever follows on the stream. */
  lemma MessageRoundTrip<E(!new)>(c: Codec<E>, env: E, rest: Bytes)
    requires Inverse(c) && Fits(c.marshal(env))
    ensures ReadMsg(c, Frame(c.marshal(env)) + rest) == Env(env, rest)
  {
    ReadWhole(c.marshal(env), rest);
    assert c.unmarshal(c.marshal(env)) == Some(env);
    assert c.marshal(env) == [] <==> env == c.empty;
  }

  // ---- the code that fills and reads the header buffer ----

  /** binary.BigEndian.PutUint32. */
  method PutUint32(header: array<Byte>, v: nat)
    requires header.Length == 4 && v < 0x1_0000_0000
    modifies header
    ensures header[..] == BE(v, 4)
  {
    header[0] := v / 0x100_0000;
    header[1] := v / 0x1_0000 % 0x100;
    header[2] := v / 0x100 % 0x100;
    header[3] := v % 0x100;
    BytesOf(v);
  }

  lemma BytesOf(v: nat)
    requires v < 0x1_0000_0000
    ensures BE(v, 4) == [v / 0x100_0000, v / 0x1_0000 % 0x100, v / 0x100 % 0x100, v % 0x100]
  {
    var a, b, c := v / 0x100, v / 0x100 / 0x100, v / 0x100 / 0x100 / 0x100;
    assert BE(c, 1) == [c % 0x100] by { assert BE(c / 0x100, 0) == []; }
    assert BE(b, 2) == BE(c, 1) + [b % 0x100];
    assert BE(a, 3) == BE(b, 2) + [a % 0x100];
  }

  /** A connection's write side. */
  class Sink {
    var bytes: Bytes

    constructor ()
      ensures bytes == []
    {
      bytes := [];
    }

    method Write(p: Bytes)
      modifies this
      ensures bytes == old(bytes) + p
    {
      bytes := bytes + p;
    }

    /** WriteMsg after marshalling: header and body are two writes; an oversized
        message writes nothing. */
    method WriteMsg(data: Bytes) returns (ok: bool)
      modifies this
      ensures ok == Fits(data)
      ensures bytes == if ok then old(bytes) + Frame(data) else old(bytes)
    {
      if |data| > MAX_MSG_SIZE {
        return false;
      }
      var header := new Byte[4](_ => 0);
      PutUint32(header, |data|);
      Write(header[..]);
      Write(data);
      assert old(bytes) + BE(|data|, 4) + data == old(bytes) + Frame(data);
      ok := true;
    }
  }

  /** A connection's read side: the bytes still to come before the stream ends. */
  class Source {
    var input: Bytes

    constructor (input: Bytes)
      ensures this.input == input
    {
      this.input := input;
    }

    /** io.ReadFull: all n bytes, or a failure that leaves the stream at its end. */
    method ReadFull(n: nat) returns (ok: bool, p: Bytes)
      modifies this
      ensures ok == (n <= |old(input)|)
      ensures ok ==> p == old(input)[..n] && input == old(input)[n..]
      ensures !ok ==> input == []
    {
      if n <= |input| {
        ok, p, input := true, input[..n], input[n..];
      } else {
        ok, p, input := false, input, [];
      }
    }

    method ReadFrameBytes() returns (r: Read)
      modifies this
      ensures r == ReadFrame(old(input))
      ensures r.Msg? ==> input == r.rest
    {
      var ok, header := ReadFull(4);
      if !ok {
        return EndOfStream;
      }
      var size := FromBE(header);
      if size == 0 {
        return Msg([], input);
      }
      if size > MAX_MSG_SIZE {
        return TooLarge;
      }
      var body;
      ok, body := ReadFull(size);
      if !ok {
        return ShortBody;
      }
      assert old(input)[4..][..size] == old(input)[4..4 + size];
      assert old(input)[4..][size..] == old(input)[4 + size..];
      r := Msg(body, input);
    }
  }
}
