/** Chunked file transfer: the sender over any read schedule, the receiver with its
    temporary file, and the two together. */
module Transfer {
  import opened Basics

  const CHUNK_SIZE := 0x1_0000

  datatype Msg =
    | Response(fileID: Id, size: int, notFound: bool)
    | Chunk(fileID: Id, data: Bytes, eof: bool)
    | Other

  // ---- the sender ----

  datatype ReadErr = NoErr | EOF | Broken

  /** What one call of Read returns: n bytes and an error. */
  datatype ReadResult = ReadResult(n: nat, err: ReadErr)

  /** The io.Reader contract at position pos: at most a buffer and at most what is left,
      end of file only at the end, and no call after an error. */
  predicate Allowed(content: Bytes, pos: nat, sched: seq<ReadResult>)
    requires pos <= |content|
    decreases |sched|
  {
    sched != [] ==>
      && sched[0].n <= CHUNK_SIZE && pos + sched[0].n <= |content|
      && (sched[0].err.EOF? ==> pos + sched[0].n == |content|)
      && if sched[0].err.NoErr? then Allowed(content, pos + sched[0].n, sched[1..]) else sched == [sched[0]]
  }

  /** The schedule makes progress to the end of the file. */
  predicate Completes(sched: seq<ReadResult>) {
    sched != [] && sched[|sched| - 1].err.EOF?
  }

  /** What one read sends: nothing if it is empty, unless it ends the file. */
  function Here(id: Id, content: Bytes, pos: nat, r: ReadResult): seq<Msg>
    requires pos + r.n <= |content|
  {
    if r.n > 0 || r.err.EOF? then [Chunk(id, content[pos..pos + r.n], r.err.EOF?)] else []
  }

  /** The chunks sent for a schedule. */
  function Chunks(id: Id, content: Bytes, pos: nat, sched: seq<ReadResult>): seq<Msg>
    requires pos <= |content| && Allowed(content, pos, sched)
    decreases |sched|
  {
    if sched == [] then []
    else if sched[0].err.NoErr?
    then Here(id, content, pos, sched[0]) + Chunks(id, content, pos + sched[0].n, sched[1..])
    else Here(id, content, pos, sched[0])
  }

  function Data(ms: seq<Msg>): Bytes {
    if ms == [] then [] else (if ms[0].Chunk? then ms[0].data else []) + Data(ms[1..])
  }

  /** Exactly the last chunk has eof, and none is larger than the buffer. */
  ghost predicate WellChunked(cs: seq<Msg>) {
    cs != [] && forall i :: 0 <= i < |cs| ==> cs[i].Chunk? && |cs[i].data| <= CHUNK_SIZE && (cs[i].eof <==> i == |cs| - 1)
  }

  lemma ChunkCons(m: Msg, rest: seq<Msg>)
    requires m.Chunk? && |m.data| <= CHUNK_SIZE && !m.eof && WellChunked(rest)
    ensures WellChunked([m] + rest) && Data([m] + rest) == m.data + Data(rest)
  {
    assert ([m] + rest)[1..] == rest;
  }

  /** The chunks of any read schedule that completes are well formed, and together they
      are the rest of the file. */
  lemma {:induction false} ChunksCarryFile(id: Id, content: Bytes, pos: nat, sched: seq<ReadResult>)
    requires pos <= |content| && Allowed(content, pos, sched) && Completes(sched)
    ensures var cs := Chunks(id, content, pos, sched); WellChunked(cs) && Data(cs) == content[pos..]
    decreases |sched|
  {
    if sched[0].err.NoErr? {
      var n := sched[0].n;
      FirstRead(id, content, pos, sched);
      ChunksCarryFile(id, content, pos + n, sched[1..]);
      CarryOn(id, content, pos, n, Chunks(id, content, pos + n, sched[1..]));
    } else {
      LastChunk(id, content, pos, sched);
    }
  }

  lemma CarryOn(id: Id, content: Bytes, pos: nat, n: nat, rest: seq<Msg>)
    requires pos + n <= |content| && n <= CHUNK_SIZE && WellChunked(rest) && Data(rest) == content[pos + n..]
    ensures var cs := (if n > 0 then [Chunk(id, content[pos..pos + n], false)] else []) + rest;
            WellChunked(cs) && Data(cs) == content[pos..]
  {
    SplitAt(content, pos, n);
    if n > 0 {
      ChunkCons(Chunk(id, content[pos..pos + n], false), rest);
    } else {
      assert [] + rest == rest;
    }
  }

  /** A read without an error sends what it got, if anything, and the loop goes on. */
  lemma FirstRead(id: Id, content: Bytes, pos: nat, sched: seq<ReadResult>)
    requires pos <= |content| && Allowed(content, pos, sched) && Completes(sched) && sched[0].err.NoErr?
    ensures var n := sched[0].n;
            && pos + n <= |content| && n <= CHUNK_SIZE
            && Allowed(content, pos + n, sched[1..]) && Completes(sched[1..])
            && Chunks(id, content, pos, sched) ==
                 (if n > 0 then [Chunk(id, content[pos..pos + n], false)] else []) + Chunks(id, content, pos + n, sched[1..])
  {
    assert |sched| > 1 && sched[1..][|sched[1..]| - 1] == sched[|sched| - 1];
  }

  lemma LastChunk(id: Id, content: Bytes, pos: nat, sched: seq<ReadResult>)
    requires pos <= |content| && Allowed(content, pos, sched) && Completes(sched) && !sched[0].err.NoErr?
    ensures var cs := Chunks(id, content, pos, sched); WellChunked(cs) && Data(cs) == content[pos..]
  {
    var r := sched[0];
    assert sched == [r];
    assert Chunks(id, content, pos, sched)[1..] == [];
    assert content[pos..pos + r.n] == content[pos..];
  }

  function Total(sched: seq<ReadResult>): nat {
    if sched == [] then 0 else sched[0].n + Total(sched[1..])
  }

  ghost predicate NoEof(cs: seq<Msg>) {
    forall i :: 0 <= i < |cs| ==> cs[i].Chunk? && !cs[i].eof
  }

  /** The chunks carry the file from pos to end, and none says it is the last. */
  ghost predicate Carry(content: Bytes, pos: nat, end: nat, cs: seq<Msg>) {
    NoEof(cs) && pos <= end <= |content| && Data(cs) == content[pos..end]
  }

  lemma Onward(id: Id, content: Bytes, pos: nat, r: ReadResult, rest: seq<Msg>, end: nat)
    requires pos + r.n <= |content| && !r.err.EOF? && Carry(content, pos + r.n, end, rest)
    ensures Carry(content, pos, end, Here(id, content, pos, r) + rest)
  {
    DataCons(Here(id, content, pos, r), rest);
    assert content[pos..pos + r.n] + content[pos + r.n..end] == content[pos..end];
  }

  /** A schedule that ends early, by a read error or an interruption, has sent exactly what
      was read, and no chunk says it is the last. */
  lemma {:induction false} ChunksSoFar(id: Id, content: Bytes, pos: nat, sched: seq<ReadResult>)
    requires pos <= |content| && Allowed(content, pos, sched) && !Completes(sched)
    ensures Carry(content, pos, pos + Total(sched), Chunks(id, content, pos, sched))
    decreases |sched|
  {
    if sched == [] {
      assert content[pos..pos] == [];
    } else if sched[0].err.NoErr? {
      var next, end := pos + sched[0].n, pos + Total(sched);
      ReadOn(id, content, pos, sched);
      ChunksSoFar(id, content, next, sched[1..]);
      assert next + Total(sched[1..]) == end;
      Onward(id, content, pos, sched[0], Chunks(id, content, next, sched[1..]), end);
    } else {
      LastFails(id, content, pos, sched);
    }
  }

  lemma ReadOn(id: Id, content: Bytes, pos: nat, sched: seq<ReadResult>)
    requires pos <= |content| && sched != [] && Allowed(content, pos, sched) && !Completes(sched) && sched[0].err.NoErr?
    ensures var n := sched[0].n;
            && pos + n <= |content| && Allowed(content, pos + n, sched[1..]) && !Completes(sched[1..])
            && Total(sched) == n + Total(sched[1..])
            && Chunks(id, content, pos, sched) == Here(id, content, pos, sched[0]) + Chunks(id, content, pos + n, sched[1..])
  {
    assert sched[1..] != [] ==> sched[1..][|sched[1..]| - 1] == sched[|sched| - 1];
  }

  lemma LastFails(id: Id, content: Bytes, pos: nat, sched: seq<ReadResult>)
    requires pos <= |content| && sched != [] && Allowed(content, pos, sched) && sched[0].err.Broken?
    ensures Carry(content, pos, pos + Total(sched), Chunks(id, content, pos, sched))
  {
    var r := sched[0];
    assert sched[1..] == [] && Total(sched) == r.n;
    assert Carry(content, pos + r.n, pos + r.n, []);
    Onward(id, content, pos, r, [], pos + r.n);
    assert Here(id, content, pos, r) + [] == Here(id, content, pos, r);
  }

  lemma DataCons(here: seq<Msg>, rest: seq<Msg>)
    requires |here| <= 1 && forall i :: 0 <= i < |here| ==> here[i].Chunk?
    ensures Data(here + rest) == (if here == [] then [] else here[0].data) + Data(rest)
  {
    if here == [] {
      assert here + rest == rest;
    } else {
      assert (here + rest)[1..] == rest;
    }
  }

  lemma SplitAt(content: Bytes, pos: nat, n: nat)
    requires pos + n <= |content|
    ensures content[pos..pos + n] + content[pos + n..] == content[pos..]
  {
  }

  /** An open file and its read position. */
  class File {
    const content: Bytes
    var pos: nat

    constructor (content: Bytes)
      ensures this.content == content && pos == 0
    {
      this.content := content;
      pos := 0;
    }

    /** Read fills the front of the buffer and leaves the rest of it as it was. */
    method Read(buf: array<Byte>, r: ReadResult) returns (n: nat)
      requires pos + r.n <= |content| && r.n <= buf.Length
      modifies this, buf
      ensures n == r.n && pos == old(pos) + n
      ensures buf[..n] == content[old(pos)..pos]
    {
      n := r.n;
      for i := 0 to n
        invariant pos == old(pos)
        invariant buf[..i] == content[pos..pos + i]
      {
        buf[i] := content[pos + i];
        assert buf[..i + 1] == buf[..i] + [content[pos + i]];
      }
      pos := pos + n;
    }
  }

  datatype Ended = Sent | NotFound | OpenFailed | ReadFailed | Interrupted

  /** One turn of the send loop: read into the reused buffer, copy, send. */
  method SendOne(id: Id, f: File, buf: array<Byte>, r: ReadResult) returns (out: seq<Msg>)
    requires f.pos + r.n <= |f.content| && r.n <= buf.Length
    modifies f, buf
    ensures f.pos == old(f.pos) + r.n && out == Here(id, f.content, old(f.pos), r)
  {
    var n := f.Read(buf, r);
    var eof := r.err.EOF?;
    out := [];
    if n > 0 || eof {
      var data := buf[..n];
      out := [Chunk(id, data, eof)];
    }
  }

  /** The send loop; the schedule stops early if the context is cancelled or a send fails. */
  method SendChunks(id: Id, f: File, sched: seq<ReadResult>) returns (sent: seq<Msg>, how: Ended)
    requires f.pos == 0 && Allowed(f.content, 0, sched)
    modifies f
    ensures sent == Chunks(id, f.content, 0, sched)
    ensures how.Sent? <==> Completes(sched)
  {
    sent := [];
    var buf := new Byte[CHUNK_SIZE](_ => 0);
    var i := 0;
    assert sched[0..] == sched;
    while i < |sched|
      invariant 0 <= i <= |sched| && f.pos <= |f.content| && Allowed(f.content, f.pos, sched[i..])
      invariant sent + Chunks(id, f.content, f.pos, sched[i..]) == Chunks(id, f.content, 0, sched)
      invariant i > 0 ==> sched[i - 1].err.NoErr?
    {
      var r := sched[i];
      assert sched[i..][0] == r && sched[i..][1..] == sched[i + 1..];
      ghost var left := Chunks(id, f.content, f.pos, sched[i..]);
      var out := SendOne(id, f, buf, r);
      if !r.err.NoErr? {
        LastRead(sched, i);
        sent := sent + out;
        how := if r.err.EOF? then Sent else ReadFailed;
        return;
      }
      Assoc(sent, out, Chunks(id, f.content, f.pos, sched[i + 1..]));
      sent := sent + out;
      i := i + 1;
    }
    assert sched[i..] == [];
    how := Interrupted;
  }

  lemma LastRead(sched: seq<ReadResult>, i: nat)
    requires i < |sched| && sched[i..] == [sched[i]]
    ensures Completes(sched) <==> sched[i].err.EOF?
  {
    assert |sched[i..]| == 1;
  }

  /** HandleRequest: not found, or the response and then the chunks. */
  method HandleRequest(id: Id, found: Option<Bytes>, statOk: bool, openOk: bool, sched: seq<ReadResult>)
    returns (sent: seq<Msg>, how: Ended)
    requires found.Some? ==> Allowed(found.value, 0, sched)
    ensures found.None? || !statOk ==> sent == [Response(id, 0, true)] && how == NotFound
    ensures found.Some? && statOk ==>
              && |sent| > 0 && sent[0] == Response(id, |found.value|, false)
              && sent[1..] == (if openOk then Chunks(id, found.value, 0, sched) else [])
              && (how.Sent? <==> openOk && Completes(sched))
  {
    if found.None? || !statOk {
      return [Response(id, 0, true)], NotFound;
    }
    sent := [Response(id, |found.value|, false)];
    if !openOk {
      return sent, OpenFailed;
    }
    var f := new File(found.value);
    var chunks;
    chunks, how := SendChunks(id, f, sched);
    sent := sent + chunks;
  }

  // ---- the receiver ----

  /** The data written for the chunks up to the first eof; none if the messages end,
      something else arrives, or the write of a chunk fails, before it. */
  function Received(ms: seq<Msg>, failAt: Option<nat>): Option<Bytes> {
    if ms == [] || !ms[0].Chunk? then None
    else if |ms[0].data| > 0 && failAt == Some(0) then None
    else if ms[0].eof then Some(ms[0].data)
    else
      var rest := Received(ms[1..], Before(failAt));
      if rest.Some? then Some(ms[0].data + rest.value) else None
  }

  function Before(failAt: Option<nat>): Option<nat> {
    if failAt.Some? && failAt.value > 0 then Some(failAt.value - 1) else None
  }

  function Collected(ms: seq<Msg>): Option<Bytes> { Received(ms, None) }

  /** Chunks of which exactly the last has eof collect to their data. */
  lemma {:induction false} CollectedIsData(cs: seq<Msg>)
    requires cs != []
    requires forall i :: 0 <= i < |cs| ==> cs[i].Chunk? && (cs[i].eof <==> i == |cs| - 1)
    ensures Collected(cs) == Some(Data(cs))
  {
    if |cs| == 1 {
      assert cs[1..] == [];
      assert Data(cs[1..]) == [];
      assert cs[0].data + [] == cs[0].data;
    } else {
      CollectedIsData(cs[1..]);
    }
  }

  /** The first eof is at position k, only chunks come before it, and the write that
      fails, if any, is that of an empty chunk or comes later. */
  ghost predicate EndsAt(ms: seq<Msg>, failAt: Option<nat>, k: nat) {
    && k < |ms| && (forall i :: 0 <= i <= k ==> ms[i].Chunk? && (ms[i].eof <==> i == k))
    && (failAt.Some? && failAt.value <= k ==> ms[failAt.value].Chunk? && ms[failAt.value].data == [])
  }

  /** What is received, if anything, is the data of all chunks up to the first eof. */
  lemma {:induction false} ReceivedIff(ms: seq<Msg>, failAt: Option<nat>)
    ensures Received(ms, failAt).Some? <==> exists k: nat :: EndsAt(ms, failAt, k)
    ensures forall k: nat :: EndsAt(ms, failAt, k) ==> Received(ms, failAt) == Some(Data(ms[..k + 1]))
  {
    if ms != [] && ms[0].Chunk? && !ms[0].eof && !(|ms[0].data| > 0 && failAt == Some(0)) {
      var rest := ms[1..];
      ReceivedIff(rest, Before(failAt));
      if k: nat :| EndsAt(rest, Before(failAt), k) {
        EndsLater(ms, failAt, k);
      }
      forall k: nat | EndsAt(ms, failAt, k)
        ensures k > 0 && EndsAt(rest, Before(failAt), k - 1)
        ensures Received(ms, failAt) == Some(Data(ms[..k + 1]))
      {
        EndsSooner(ms, failAt, k);
        assert ms[..k + 1][1..] == rest[..k];
      }
    } else if ms != [] && ms[0].Chunk? && ms[0].eof {
      assert ms[..1][1..] == [];
      assert ms[0].data + [] == ms[0].data;
      if !(|ms[0].data| > 0 && failAt == Some(0)) {
        assert EndsAt(ms, failAt, 0);
      }
    }
  }

  lemma EndsLater(ms: seq<Msg>, failAt: Option<nat>, k: nat)
    requires ms != [] && ms[0].Chunk? && !ms[0].eof && !(|ms[0].data| > 0 && failAt == Some(0))
    requires EndsAt(ms[1..], Before(failAt), k)
    ensures EndsAt(ms, failAt, k + 1)
  {
    forall i | 0 < i <= k + 1
      ensures ms[i] == ms[1..][i - 1]
    {
    }
  }

  lemma EndsSooner(ms: seq<Msg>, failAt: Option<nat>, k: nat)
    requires ms != [] && ms[0].Chunk? && !ms[0].eof && EndsAt(ms, failAt, k)
    ensures k > 0 && EndsAt(ms[1..], Before(failAt), k - 1)
  {
    forall i | 0 <= i < k
      ensures ms[1..][i] == ms[i + 1]
    {
    }
  }

  function HexDigit(d: int): char
    requires 0 <= d < 16
  {
    if d < 10 then (d + '0' as int) as char else (d - 10 + 'a' as int) as char
  }

  function Hex(b: Bytes): string {
    if b == [] then "" else [HexDigit(b[0] / 16), HexDigit(b[0] % 16)] + Hex(b[1..])
  }

  lemma HexDigitBack(d: int, e: int)
    requires 0 <= d < 16 && 0 <= e < 16 && HexDigit(d) == HexDigit(e)
    ensures d == e
  {
  }

  lemma {:induction false} HexLength(b: Bytes)
    ensures |Hex(b)| == 2 * |b|
  {
    if b != [] {
      HexLength(b[1..]);
    }
  }

  /** Two files are saved under different names: 64 characters that determine the ID. */
  lemma {:induction false} HexInjective(a: Bytes, b: Bytes)
    requires Hex(a) == Hex(b)
    ensures a == b && |Hex(a)| == 2 * |a|
  {
    HexLength(a);
    HexLength(b);
    if a != [] {
      assert Hex(a)[0] == HexDigit(a[0] / 16) && Hex(a)[1] == HexDigit(a[0] % 16);
      assert Hex(b)[0] == HexDigit(b[0] / 16) && Hex(b)[1] == HexDigit(b[0] % 16);
      HexDigitBack(a[0] / 16, b[0] / 16);
      HexDigitBack(a[0] % 16, b[0] % 16);
      assert Hex(a)[2..] == Hex(a[1..]) && Hex(b)[2..] == Hex(b[1..]);
      HexInjective(a[1..], b[1..]);
      assert a == [a[0]] + a[1..] && b == [b[0]] + b[1..];
    }
  }

  const TMP_PREFIX: string := ".kin-tmp-"

  lemma HexIsNoTmp(id: Id, tmp: string)
    requires TMP_PREFIX <= tmp
    ensures Hex(id) != tmp
  {
    assert Hex(id)[0] == HexDigit(id[0] / 16);
    assert tmp[0] == '.';
  }

  /** Which operating-system calls fail; the n-th write of a chunk may. */
  datatype Faults = Faults(send: bool, create: bool, write: Option<nat>, close: bool, rename: bool)

  datatype Outcome = Saved(path: string, data: Bytes) | Failed

  /** What a request ends with: the peer has the file, streams it to an eof, nothing
      fails locally, and the content hashes to the requested ID. Neither the size in
      the response nor the file ID in the chunks is looked at. */
  function Fetched(id: Id, hash: Bytes -> Id, inbox: seq<Msg>, faults: Faults): (r: Option<Bytes>)
    ensures r.Some? ==> hash(r.value) == id
  {
    if faults.send || inbox == [] || !inbox[0].Response? || inbox[0].notFound || faults.create then None
    else
      var data := Received(inbox[1..], faults.write);
      if data.None? || faults.close || hash(data.value) != id || faults.rename then None else data
  }

  /** A request succeeds if and only if the peer says it has the file, the chunks end with
      an eof, their data hashes to the requested ID and nothing fails locally; that data
      is then what is saved. */
  lemma FetchedIff(id: Id, hash: Bytes -> Id, inbox: seq<Msg>, faults: Faults, data: Bytes)
    ensures Fetched(id, hash, inbox, faults) == Some(data) <==>
              && !faults.send && !faults.create && !faults.close && !faults.rename
              && inbox != [] && inbox[0].Response? && !inbox[0].notFound
              && (exists k: nat :: EndsAt(inbox[1..], faults.write, k) && data == Data(inbox[1..][..k + 1]))
              && hash(data) == id
  {
    if inbox != [] {
      ReceivedIff(inbox[1..], faults.write);
    }
  }

  const NO_FAULTS := Faults(false, false, None, false, false)

  /** The file names and contents of the destination directory. */
  class Dir {
    var files: map<string, Bytes>

    constructor (files: map<string, Bytes>)
      ensures this.files == files
    {
      this.files := files;
    }

    /** The receive loop: every chunk goes to the temporary file. */
    method WriteChunks(tmp: string, ms: seq<Msg>, failAt: Option<nat>) returns (ok: bool)
      requires tmp in files && files[tmp] == []
      modifies this
      ensures tmp in files && files == old(files)[tmp := files[tmp]]
      ensures ok == Received(ms, failAt).Some?
      ensures ok ==> Received(ms, failAt) == Some(files[tmp])
    {
      var i := 0;
      ok := false;
      var fail := failAt;
      assert ms[0..] == ms;
      assert forall b: Bytes :: [] + b == b;
      while i < |ms|
        invariant 0 <= i <= |ms| && tmp in files && files == old(files)[tmp := files[tmp]]
        invariant Received(ms, failAt).Some? <==> Received(ms[i..], fail).Some?
        invariant Received(ms[i..], fail).Some? ==>
                    Received(ms, failAt) == Some(files[tmp] + Received(ms[i..], fail).value)
      {
        var m := ms[i];
        assert ms[i..][0] == m && ms[i..][1..] == ms[i + 1..];
        if !m.Chunk? || (|m.data| > 0 && fail == Some(0)) {
          return;
        }
        ghost var was := files[tmp];
        files := files[tmp := files[tmp] + m.data];
        if m.eof {
          return true;
        }
        if Received(ms[i + 1..], Before(fail)).Some? {
          Assoc(was, m.data, Received(ms[i + 1..], Before(fail)).value);
        }
        fail := Before(fail);
        i := i + 1;
      }
      assert ms[i..] == [];
    }

    /** RequestFile: on success the directory gains exactly the file named after the
        requested hash, with content of that hash; on failure it is unchanged; no
        temporary file remains either way. */
    method RequestFile(id: Id, hash: Bytes -> Id, tmp: string, inbox: seq<Msg>, faults: Faults)
      returns (r: Outcome)
      requires TMP_PREFIX <= tmp && tmp !in files
      modifies this
      ensures Fetched(id, hash, inbox, faults).None? ==> r == Failed && files == old(files)
      ensures Fetched(id, hash, inbox, faults).Some? ==>
                var data := Fetched(id, hash, inbox, faults).value;
                r == Saved(Hex(id), data) && files == old(files)[Hex(id) := data]
    {
      if faults.send || inbox == [] {
        return Failed;
      }
      var resp := inbox[0];
      if !resp.Response? || resp.notFound {
        return Failed;
      }
      if faults.create {
        return Failed;
      }
      files := files[tmp := []];
      HexIsNoTmp(id, tmp);
      var ok := WriteChunks(tmp, inbox[1..], faults.write);
      assert old(files) == files - {tmp};
      if !ok || faults.close || hash(files[tmp]) != id || faults.rename {
        files := files - {tmp};
        return Failed;
      }
      var data := files[tmp];
      files := (files - {tmp})[Hex(id) := data];
      r := Saved(Hex(id), data);
    }
  }

  // ---- end to end ----

  /** Whatever the read schedule, the receiver collects exactly the sender's file. */
  lemma TransferDelivers(id: Id, content: Bytes, sched: seq<ReadResult>)
    requires Allowed(content, 0, sched) && Completes(sched)
    ensures Collected(Chunks(id, content, 0, sched)) == Some(content)
  {
    ChunksCarryFile(id, content, 0, sched);
    CollectedIsData(Chunks(id, content, 0, sched));
  }

  /** A transfer between the two sides, each with its own code. */
  method Transfer(id: Id, content: Bytes, sched: seq<ReadResult>, hash: Bytes -> Id, dest: Dir, tmp: string)
    returns (r: Outcome)
    requires Allowed(content, 0, sched) && TMP_PREFIX <= tmp && tmp !in dest.files
    modifies dest
    ensures Completes(sched) && hash(content) == id ==>
              r == Saved(Hex(id), content) && dest.files == old(dest.files)[Hex(id) := content]
    ensures Completes(sched) && hash(content) != id ==> r == Failed && dest.files == old(dest.files)
  {
    var sent, how := HandleRequest(id, Some(content), true, true, sched);
    if Completes(sched) {
      TransferDelivers(id, content, sched);
    }
    r := dest.RequestFile(id, hash, tmp, sent, NO_FAULTS);
  }
}
