/** Invite tokens: the binary layout, its parser, and what signing and validating see. */
module Invite {
  import opened Basics
  import opened Endian
  import B = Base64Url

  const SIG_SIZE := 64
  const MIN_SIZE := 122

  type Nonce = s: Bytes | |s| == 16 witness seq(16, _ => 0)

  const NANOS := 1_000_000_000

  /** Seconds from the year 1, where time.Time counts from, to 1970. */
  const TO_1970 := 62_135_596_800

  /** A time.Time, in nanoseconds since 1970: its seconds since the year 1 are an int64. */
  type Instant = t: int | -0x8000_0000_0000_0000 <= t / NANOS + TO_1970 < 0x8000_0000_0000_0000

  datatype Token = Token(publicKey: Bytes, endpoints: seq<Bytes>, nonce: Nonce, expiresAt: Instant)

  /** uint64(x) and int64(u): two's complement. */
  function ToU64(x: int): nat
    requires -0x8000_0000_0000_0000 <= x < 0x8000_0000_0000_0000
  {
    if x < 0 then x + 0x1_0000_0000_0000_0000 else x
  }

  function ToI64(u: nat): int
    requires u < 0x1_0000_0000_0000_0000
  {
    if u >= 0x8000_0000_0000_0000 then u - 0x1_0000_0000_0000_0000 else u
  }

  /** Time.Unix: seconds since 1970 as an int64, wrapping for the earliest times. */
  function UnixSeconds(t: Instant): (u: int)
    ensures -0x8000_0000_0000_0000 <= u < 0x8000_0000_0000_0000
  {
    var secs := t / NANOS;
    if secs < -0x8000_0000_0000_0000 then secs + 0x1_0000_0000_0000_0000 else secs
  }

  /** time.Unix: the latest int64 seconds wrap to times long before the year 1. */
  function FromUnix(u: int): (t: Instant)
    requires -0x8000_0000_0000_0000 <= u < 0x8000_0000_0000_0000
    ensures t % NANOS == 0 && UnixSeconds(t) == u
  {
    (if u + TO_1970 >= 0x8000_0000_0000_0000 then u - 0x1_0000_0000_0000_0000 else u) * NANOS
  }

  /** Two times with the same Unix seconds lie within one second. */
  lemma SameSeconds(s: Instant, t: Instant)
    requires UnixSeconds(s) == UnixSeconds(t)
    ensures s / NANOS == t / NANOS
  {
  }

  function WholeSeconds(t: Token): Token {
    t.(expiresAt := t.expiresAt / NANOS * NANOS)
  }

  function EncodeEndpoints(eps: seq<Bytes>): Bytes {
    if eps == [] then [] else BE(|eps[0]|, 2) + eps[0] + EncodeEndpoints(eps[1..])
  }

  /** What marshalPayload accepts. */
  ghost predicate Marshalable(t: Token) {
    |t.publicKey| == 32 && |t.endpoints| <= 0xFFFF && forall i :: 0 <= i < |t.endpoints| ==> |t.endpoints[i]| <= 0xFFFF
  }

  function Head(t: Token): Bytes { t.publicKey + BE(|t.endpoints|, 2) }
  function Tail(t: Token): Bytes { t.nonce + BE(ToU64(UnixSeconds(t.expiresAt)), 8) }

  /** The signed part of a token. */
  function Payload(t: Token): Bytes {
    Head(t) + EncodeEndpoints(t.endpoints) + Tail(t)
  }

  /** The bytes are a payload, anything, and a 64-byte signature. */
  ghost predicate Parses(data: Bytes, t: Token) {
    && Marshalable(t) && t == WholeSeconds(t)
    && |data| >= SIG_SIZE && Payload(t) <= data[..|data| - SIG_SIZE]
  }

  // ---- endpoint lists ----

  lemma {:induction false} EndpointsAppend(a: seq<Bytes>, b: seq<Bytes>)
    ensures EncodeEndpoints(a + b) == EncodeEndpoints(a) + EncodeEndpoints(b)
  {
    if a == [] {
      assert a + b == b;
    } else {
      assert (a + b)[1..] == a[1..] + b;
      EndpointsAppend(a[1..], b);
      Assoc(BE(|a[0]|, 2) + a[0], EncodeEndpoints(a[1..]), EncodeEndpoints(b));
    }
  }

  ghost predicate AllShort(eps: seq<Bytes>) {
    forall i :: 0 <= i < |eps| ==> |eps[i]| <= 0xFFFF
  }

  /** The length field of the first endpoint. */
  lemma FirstEndpoint(eps: seq<Bytes>, d: Bytes)
    requires eps != [] && AllShort(eps) && EncodeEndpoints(eps) <= d
    ensures |d| >= 2 + |eps[0]| && FromBE(d[..2]) == |eps[0]| && d[2..2 + |eps[0]|] == eps[0]
    ensures EncodeEndpoints(eps[1..]) <= d[2 + |eps[0]|..]
  {
    var n := |eps[0]|;
    Powers();
    ReadBack(n, 2);
    var rest := EncodeEndpoints(eps[1..]);
    var whole := BE(n, 2) + eps[0] + rest;
    assert d[..2] == whole[..2] == BE(n, 2);
    assert d[2..2 + n] == whole[2..2 + n] == eps[0];
    assert d[2 + n..][..|rest|] == whole[2 + n..] == rest;
  }

  /** Lists of one length that encode to prefixes of the same bytes are equal. */
  lemma {:induction false} EndpointsUnique(a: seq<Bytes>, b: seq<Bytes>, d: Bytes)
    requires |a| == |b| && AllShort(a) && AllShort(b)
    requires EncodeEndpoints(a) <= d && EncodeEndpoints(b) <= d
    ensures a == b
  {
    if a != [] {
      FirstEndpoint(a, d);
      FirstEndpoint(b, d);
      EndpointsUnique(a[1..], b[1..], d[2 + |a[0]|..]);
      assert a == [a[0]] + a[1..] && b == [b[0]] + b[1..];
    }
  }

  // ---- the layout of a payload ----

  lemma PayloadLayout(t: Token, d: Bytes)
    requires Marshalable(t) && Payload(t) <= d
    ensures var e := |EncodeEndpoints(t.endpoints)|;
            && |d| >= 58 + e && |Payload(t)| == 58 + e
            && d[..32] == t.publicKey
            && FromBE(d[32..34]) == |t.endpoints|
            && EncodeEndpoints(t.endpoints) <= d[34..]
            && d[34 + e..50 + e] == t.nonce
            && d[50 + e..58 + e] == BE(ToU64(UnixSeconds(t.expiresAt)), 8)
  {
    var p, ep := Payload(t), EncodeEndpoints(t.endpoints);
    var e := |ep|;
    Powers();
    ReadBack(|t.endpoints|, 2);
    assert d[..|p|] == p;
    assert d[..32] == p[..32] == t.publicKey;
    assert d[32..34] == p[32..34] == BE(|t.endpoints|, 2);
    assert d[34..][..e] == p[34..34 + e] == ep;
    assert d[34 + e..50 + e] == p[34 + e..50 + e] == t.nonce;
    assert d[50 + e..58 + e] == p[50 + e..58 + e];
  }

  lemma ExpiryBack(x: int)
    requires -0x8000_0000_0000_0000 <= x < 0x8000_0000_0000_0000
    ensures FromBE(BE(ToU64(x), 8)) == ToU64(x) && ToI64(ToU64(x)) == x
  {
    Powers();
    ReadBack(ToU64(x), 8);
  }

  /** Payloads are prefix-free: at most one token is encoded at the start of any bytes. */
  lemma PayloadUnique(s: Token, t: Token, d: Bytes)
    requires Marshalable(s) && Marshalable(t) && Payload(s) <= d && Payload(t) <= d
    ensures WholeSeconds(s) == WholeSeconds(t)
  {
    PayloadLayout(s, d);
    PayloadLayout(t, d);
    EndpointsUnique(s.endpoints, t.endpoints, d[34..]);
    ExpiryBack(UnixSeconds(s.expiresAt));
    ExpiryBack(UnixSeconds(t.expiresAt));
    SameSeconds(s.expiresAt, t.expiresAt);
  }

  /** Equal payloads, or one a prefix of the other, mean equal tokens up to seconds. */
  lemma PayloadPrefixFree(s: Token, t: Token)
    requires Marshalable(s) && Marshalable(t) && Payload(s) <= Payload(t)
    ensures WholeSeconds(s) == WholeSeconds(t)
  {
    PayloadUnique(s, t, Payload(t));
  }

  // ---- the parser, as what it accepts ----

  /** unmarshal: the token whose payload the data starts with, if any. */
  ghost function Unmarshalled(data: Bytes): Option<Token> {
    if exists t :: Parses(data, t) then
      var t :| Parses(data, t);
      Some(t)
    else None
  }

  lemma ParsesDecides(data: Bytes, t: Token)
    requires Parses(data, t)
    ensures Unmarshalled(data) == Some(t)
  {
    var u := Unmarshalled(data).value;
    PayloadUnique(t, u, data[..|data| - SIG_SIZE]);
  }

  lemma WholeSecondsPayload(t: Token)
    ensures Payload(WholeSeconds(t)) == Payload(t) && WholeSeconds(WholeSeconds(t)) == WholeSeconds(t)
  {
    SecondsBack(t.expiresAt / NANOS);
    var u := WholeSeconds(t);
    assert u.expiresAt / NANOS == t.expiresAt / NANOS;
    assert Head(u) == Head(t) && Tail(u) == Tail(t);
  }

  lemma SecondsBack(secs: int)
    ensures secs * NANOS / NANOS == secs
  {
  }

  /** Bytes between the payload and the signature are tolerated. */
  lemma ExtraBytesTolerated(t: Token, extra: Bytes, sig: Bytes)
    requires Marshalable(t) && |sig| == SIG_SIZE
    ensures Unmarshalled(Payload(t) + extra + sig) == Some(WholeSeconds(t))
  {
    var data := Payload(t) + extra + sig;
    WholeSecondsPayload(t);
    assert data[..|data| - SIG_SIZE] == Payload(t) + extra;
    ParsesDecides(data, WholeSeconds(t));
  }

  // ---- the code ----

  method MarshalPayload(t: Token) returns (r: Option<Bytes>)
    ensures r.Some? <==> Marshalable(t)
    ensures r.Some? ==> r.value == Payload(t)
  {
    if |t.publicKey| != 32 {
      return None;
    }
    if |t.endpoints| > 0xFFFF {
      return None;
    }
    var buf := t.publicKey;
    buf := buf + BE(|t.endpoints|, 2);
    for i := 0 to |t.endpoints|
      invariant buf == Head(t) + EncodeEndpoints(t.endpoints[..i])
      invariant AllShort(t.endpoints[..i])
    {
      var ep := t.endpoints[i];
      if |ep| > 0xFFFF {
        return None;
      }
      assert t.endpoints[..i + 1] == t.endpoints[..i] + [ep];
      EndpointsAppend(t.endpoints[..i], [ep]);
      assert EncodeEndpoints([ep]) == BE(|ep|, 2) + ep;
      Assoc(Head(t), EncodeEndpoints(t.endpoints[..i]), BE(|ep|, 2) + ep);
      Assoc(Head(t) + EncodeEndpoints(t.endpoints[..i]), BE(|ep|, 2), ep);
      buf := buf + BE(|ep|, 2);
      buf := buf + ep;
    }
    assert t.endpoints[..|t.endpoints|] == t.endpoints;
    Assoc(Head(t) + EncodeEndpoints(t.endpoints), t.nonce, BE(ToU64(UnixSeconds(t.expiresAt)), 8));
    buf := buf + t.nonce;
    buf := buf + BE(ToU64(UnixSeconds(t.expiresAt)), 8);
    r := Some(buf);
  }

  newtype uint16 = x: int | 0 <= x < 0x1_0000

  /** How far the parser is: it has read `eps` out of `count` endpoints. */
  ghost predicate ReadSoFar(data: Bytes, count: int, eps: seq<Bytes>, offset: nat) {
    && |data| >= MIN_SIZE && count == FromBE(data[32..34]) && |eps| <= count
    && AllShort(eps) && offset == 34 + |EncodeEndpoints(eps)| <= |data| - 88
    && EncodeEndpoints(eps) <= data[34..]
  }

  /** Any token the data parses to starts with the endpoints read so far. */
  lemma ParsedSoFar(data: Bytes, count: int, eps: seq<Bytes>, offset: nat, t: Token)
    requires ReadSoFar(data, count, eps, offset) && Parses(data, t)
    ensures |t.endpoints| == count && t.endpoints[..|eps|] == eps
    ensures EncodeEndpoints(t.endpoints[|eps|..]) <= data[offset..]
    ensures offset + |EncodeEndpoints(t.endpoints[|eps|..])| <= |data| - 88
  {
    var body := data[..|data| - SIG_SIZE];
    PayloadLayout(t, body);
    assert body[32..34] == data[32..34];
    var all, n := t.endpoints, |eps|;
    assert all == all[..n] + all[n..];
    EndpointsAppend(all[..n], all[n..]);
    var d := data[34..];
    assert EncodeEndpoints(all) <= d by { assert body[34..] <= d; }
    assert EncodeEndpoints(all[..n]) <= d;
    EndpointsUnique(all[..n], eps, d);
    assert d[|EncodeEndpoints(eps)|..] == data[offset..];
    var whole := EncodeEndpoints(all);
    assert d[..|whole|] == whole;
    assert whole[|EncodeEndpoints(eps)|..] == EncodeEndpoints(all[n..]);
  }

  /** Data that parses has room for the next endpoint. */
  lemma ParsedNext(data: Bytes, count: int, eps: seq<Bytes>, offset: nat, t: Token)
    requires ReadSoFar(data, count, eps, offset) && |eps| < count && Parses(data, t)
    ensures offset + 2 <= |data| - 88 && offset + 2 + FromBE(data[offset..offset + 2]) <= |data| - 88
  {
    ParsedSoFar(data, count, eps, offset, t);
    var rest := t.endpoints[|eps|..];
    FirstEndpoint(rest, data[offset..]);
    assert EncodeEndpoints(rest) == BE(|rest[0]|, 2) + rest[0] + EncodeEndpoints(rest[1..]);
    assert data[offset..][..2] == data[offset..offset + 2];
  }

  /** The two truncation checks fire only on data that no token encodes to. */
  lemma TruncatedEndpoint(data: Bytes, count: int, eps: seq<Bytes>, offset: nat)
    requires ReadSoFar(data, count, eps, offset) && |eps| < count
    requires offset + 2 > |data| - 88 || offset + 2 + FromBE(data[offset..offset + 2]) > |data| - 88
    ensures Unmarshalled(data) == None
  {
    if t :| Parses(data, t) {
      ParsedNext(data, count, eps, offset, t);
    }
  }

  lemma ParsedIsLong(data: Bytes, t: Token)
    requires Parses(data, t)
    ensures |data| >= MIN_SIZE
  {
    PayloadLayout(t, data[..|data| - SIG_SIZE]);
  }

  lemma ShortData(data: Bytes)
    requires |data| < MIN_SIZE
    ensures Unmarshalled(data) == None
  {
    if t :| Parses(data, t) {
      ParsedIsLong(data, t);
    }
  }

  lemma Shifted(data: Bytes, a: nat, i: nat, n: nat)
    requires a + i + n <= |data|
    ensures data[a..][i..i + n] == data[a + i..a + i + n]
  {
  }

  lemma EndpointRead(d: Bytes, eps: seq<Bytes>, ep: Bytes)
    requires |d| >= |EncodeEndpoints(eps)| + 2 + |ep| && EncodeEndpoints(eps) <= d
    requires var e := |EncodeEndpoints(eps)|; d[e..e + 2] == BE(|ep|, 2) && d[e + 2..e + 2 + |ep|] == ep
    ensures |EncodeEndpoints(eps + [ep])| == |EncodeEndpoints(eps)| + 2 + |ep| && EncodeEndpoints(eps + [ep]) <= d
  {
    var e, n := |EncodeEndpoints(eps)|, |ep|;
    EndpointsAppend(eps, [ep]);
    assert EncodeEndpoints([ep]) == BE(n, 2) + ep;
    assert d[..e + 2 + n] == d[..e] + (d[e..e + 2] + d[e + 2..e + 2 + n]);
  }

  lemma OneMore(data: Bytes, count: int, eps: seq<Bytes>, offset: nat)
    requires ReadSoFar(data, count, eps, offset) && |eps| < count && offset + 2 <= |data| - 88
    requires offset + 2 + FromBE(data[offset..offset + 2]) <= |data| - 88
    ensures var n := FromBE(data[offset..offset + 2]);
            ReadSoFar(data, count, eps + [data[offset + 2..offset + 2 + n]], offset + 2 + n)
  {
    var n := FromBE(data[offset..offset + 2]);
    Powers();
    WriteBack(data[offset..offset + 2]);
    var e := |EncodeEndpoints(eps)|;
    Shifted(data, 34, e, 2);
    Shifted(data, 34, e + 2, n);
    EndpointRead(data[34..], eps, data[offset + 2..offset + 2 + n]);
  }

  lemma Finish(data: Bytes, count: int, eps: seq<Bytes>, offset: nat)
    requires ReadSoFar(data, count, eps, offset) && |eps| == count
    ensures FromBE(data[offset + 16..offset + 24]) < 0x1_0000_0000_0000_0000
    ensures var secs := ToI64(FromBE(data[offset + 16..offset + 24]));
            && -0x8000_0000_0000_0000 <= secs < 0x8000_0000_0000_0000
            && Unmarshalled(data) == Some(Token(data[..32], eps, data[offset..offset + 16], FromUnix(secs)))
  {
    Powers();
    var raw := data[offset + 16..offset + 24];
    WriteBack(raw);
    WriteBack(data[32..34]);
    var secs := ToI64(FromBE(raw));
    var t := Token(data[..32], eps, data[offset..offset + 16], FromUnix(secs));
    assert ToU64(UnixSeconds(t.expiresAt)) == FromBE(raw) && t == WholeSeconds(t) && Marshalable(t);
    assert Tail(t) == data[offset..offset + 16] + raw;
    var body := data[..|data| - SIG_SIZE];
    var ep := EncodeEndpoints(eps);
    assert data[34..][..|ep|] == ep;
    assert data[34..offset] == data[34..][..|ep|];
    FiveSlices(data, offset);
    assert body[..offset + 24] == data[..offset + 24];
    ParsesDecides(data, t);
  }

  lemma FiveSlices(data: Bytes, offset: nat)
    requires 34 <= offset && offset + 24 <= |data|
    ensures data[..offset + 24]
         == data[..32] + data[32..34] + data[34..offset] + (data[offset..offset + 16] + data[offset + 16..offset + 24])
  {
  }

  /** unmarshal never slices out of range, its uint16 counter does not wrap, and it
      returns exactly the token the data starts with, if there is one. */
  method Unmarshal(data: Bytes) returns (r: Option<Token>)
    ensures r == Unmarshalled(data)
  {
    if |data| < MIN_SIZE {
      ShortData(data);
      return None;
    }
    var offset: nat := 0;
    var pubkey := data[offset..offset + 32];
    offset := offset + 32;
    Powers();
    WriteBack(data[offset..offset + 2]);
    var epCount := FromBE(data[offset..offset + 2]) as uint16;
    offset := offset + 2;
    var endpoints: seq<Bytes> := [];
    var i: uint16 := 0;
    while i < epCount
      invariant i <= epCount && |endpoints| == i as int
      invariant ReadSoFar(data, epCount as int, endpoints, offset)
    {
      if offset + 2 > |data| - 16 - 8 - SIG_SIZE {
        TruncatedEndpoint(data, epCount as int, endpoints, offset);
        return None;
      }
      var epLen := FromBE(data[offset..offset + 2]);
      if offset + 2 + epLen > |data| - 16 - 8 - SIG_SIZE {
        TruncatedEndpoint(data, epCount as int, endpoints, offset);
        return None;
      }
      OneMore(data, epCount as int, endpoints, offset);
      offset := offset + 2;
      endpoints := endpoints + [data[offset..offset + epLen]];
      offset := offset + epLen;
      i := i + 1;
    }
    Finish(data, epCount as int, endpoints, offset);
    var nonce := data[offset..offset + 16];
    offset := offset + 16;
    var expiry := ToI64(FromBE(data[offset..offset + 8]));
    r := Some(Token(pubkey, endpoints, nonce, FromUnix(expiry)));
  }

  // ---- signing and validating ----

  /** Ed25519 as far as invites rely on it; sections 5.1.6 and 5.1.7 of RFC 8032 make a
      signature 64 bytes long and accepted under the signer's public key. */
  datatype Ed25519 = Ed25519(
    public: Bytes -> Bytes,
    sign: (Bytes, Bytes) -> Bytes,
    verify: (Bytes, Bytes, Bytes) -> bool)

  ghost predicate Correct(ed: Ed25519) {
    && (forall k, m :: |ed.sign(k, m)| == SIG_SIZE)
    && (forall k, m :: ed.verify(ed.public(k), m, ed.sign(k, m)))
  }

  const SCHEME: string := "kin:"

  /** Encode, for a token that marshals. */
  function Encoded(ed: Ed25519, t: Token, key: Bytes): string {
    SCHEME + B.Encode(Payload(t) + ed.sign(key, Payload(t)))
  }

  ghost function Decoded(raw: string): Option<Token> {
    if !(SCHEME <= raw) then None
    else
      var data := B.Decode(raw[4..]);
      if data.None? then None else Unmarshalled(data.value)
  }

  /** Panics: the text is shorter than the scheme, or the key has the wrong size for Verify. */
  datatype Verdict = Accepted | Expired | BadText | TooShort | BadSignature | Replayed | Panics

  /** Validate, with the clock and the nonces already used as inputs. The text has one
      character per byte. */
  function Validate(ed: Ed25519, t: Token, raw: string, used: set<Nonce>, now: int): Verdict {
    if now > t.expiresAt then Expired
    else if |raw| < 4 then Panics
    else
      var data := B.Decode(raw[4..]);
      if data.None? then BadText
      else if |data.value| < SIG_SIZE then TooShort
      else
        var cut := |data.value| - SIG_SIZE;
        if |t.publicKey| != 32 then Panics
        else if !ed.verify(t.publicKey, data.value[..cut], data.value[cut..]) then BadSignature
        else if t.nonce in used then Replayed
        else Accepted
  }

  /** The text after the scheme decodes to a payload and a 64-byte signature that
      verifies under the key. */
  ghost predicate SignedUnder(ed: Ed25519, key: Bytes, raw: string) {
    |key| == 32 && |raw| >= 4 &&
    exists payload: Bytes, sig: Bytes ::
      |sig| == 64 && B.Decode(raw[4..]) == Some(payload + sig) && ed.verify(key, payload, sig)
  }

  lemma SplitVerifies(ed: Ed25519, key: Bytes, raw: string)
    requires |key| == 32 && |raw| >= 4
    ensures SignedUnder(ed, key, raw) <==>
              var data := B.Decode(raw[4..]);
              && data.Some? && |data.value| >= 64
              && ed.verify(key, data.value[..|data.value| - 64], data.value[|data.value| - 64..])
  {
    var data := B.Decode(raw[4..]);
    if data.Some? && |data.value| >= 64 {
      var cut := |data.value| - 64;
      assert data.value == data.value[..cut] + data.value[cut..];
    }
    if payload: Bytes, sig: Bytes :| |sig| == 64 && data == Some(payload + sig) && ed.verify(key, payload, sig) {
      assert (payload + sig)[..|payload|] == payload && (payload + sig)[|payload|..] == sig;
    }
  }

  /** A token is accepted if and only if it has not expired, its text carries a signature
      that verifies under its key, and its nonce is new. */
  lemma AcceptedIffSigned(ed: Ed25519, t: Token, raw: string, used: set<Nonce>, now: int)
    ensures Validate(ed, t, raw, used, now) == Accepted <==>
              now <= t.expiresAt && SignedUnder(ed, t.publicKey, raw) && t.nonce !in used
  {
    if |t.publicKey| == 32 && |raw| >= 4 {
      SplitVerifies(ed, t.publicKey, raw);
    }
  }

  /** Each refusal names the first check that fails. */
  lemma RefusedBecause(ed: Ed25519, t: Token, raw: string, used: set<Nonce>, now: int)
    ensures var v := Validate(ed, t, raw, used, now);
            && (v == Expired <==> now > t.expiresAt)
            && (v == Replayed <==> now <= t.expiresAt && SignedUnder(ed, t.publicKey, raw) && t.nonce in used)
            && (v == BadSignature ==> |raw| >= 4 && B.Decode(raw[4..]).Some? && !SignedUnder(ed, t.publicKey, raw))
            && (v == BadText <==> now <= t.expiresAt && |raw| >= 4 && B.Decode(raw[4..]).None?)
  {
    if |t.publicKey| == 32 && |raw| >= 4 {
      SplitVerifies(ed, t.publicKey, raw);
    }
  }

  lemma EncodedText(ed: Ed25519, t: Token, key: Bytes)
    requires Correct(ed)
    ensures var raw, full := Encoded(ed, t, key), Payload(t) + ed.sign(key, Payload(t));
            && SCHEME <= raw && |raw| >= 4 && B.Decode(raw[4..]) == Some(full)
            && |full| >= SIG_SIZE && full[..|full| - SIG_SIZE] == Payload(t)
            && full[|full| - SIG_SIZE..] == ed.sign(key, Payload(t))
  {
    var full := Payload(t) + ed.sign(key, Payload(t));
    assert |ed.sign(key, Payload(t))| == SIG_SIZE;
    B.RoundTrip(full);
    assert Encoded(ed, t, key)[4..] == B.Encode(full);
  }

  /** Decoding an encoded token gives it back with its expiry in whole seconds, for
      every token within the 16-bit limits and any int64 expiry. */
  lemma DecodeEncode(ed: Ed25519, t: Token, key: Bytes)
    requires Correct(ed) && Marshalable(t)
    ensures Decoded(Encoded(ed, t, key)) == Some(WholeSeconds(t))
  {
    EncodedText(ed, t, key);
    WholeSecondsPayload(t);
    ParsesDecides(Payload(t) + ed.sign(key, Payload(t)), WholeSeconds(t));
  }

  /** A text decodes to a token if and only if it is "kin:" and the base64url form of
      bytes that start with the token's payload and end in 64 more. */
  lemma DecodedIff(raw: string, t: Token)
    ensures Decoded(raw) == Some(t) <==>
              "kin:" <= raw && B.Decode(raw[4..]).Some? && Parses(B.Decode(raw[4..]).value, t)
  {
    if "kin:" <= raw && B.Decode(raw[4..]).Some? && Parses(B.Decode(raw[4..]).value, t) {
      ParsesDecides(B.Decode(raw[4..]).value, t);
    }
  }

  /** A decoded token never makes Validate panic on the text it was decoded from. */
  lemma DecodedNeverPanics(ed: Ed25519, raw: string, used: set<Nonce>, now: int)
    requires Decoded(raw).Some?
    ensures Validate(ed, Decoded(raw).value, raw, used, now) != Panics
  {
    assert |raw| >= 4;
  }

  /** The split at len-64 recovers exactly what was signed, so an honest token is
      accepted if and only if it has not expired, to the second, and its nonce is new. */
  lemma HonestTokenValidates(ed: Ed25519, t: Token, key: Bytes, used: set<Nonce>, now: int)
    requires Correct(ed) && Marshalable(t) && t.publicKey == ed.public(key)
    ensures var raw := Encoded(ed, t, key);
            && |raw| >= 4 && Decoded(raw) == Some(WholeSeconds(t))
            && (Validate(ed, Decoded(raw).value, raw, used, now) == Accepted
                <==> now <= t.expiresAt / NANOS * NANOS && t.nonce !in used)
  {
    EncodedText(ed, t, key);
    DecodeEncode(ed, t, key);
    assert ed.verify(ed.public(key), Payload(t), ed.sign(key, Payload(t)));
  }
}
