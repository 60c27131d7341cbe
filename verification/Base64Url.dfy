/** Unpadded base64url, section 5 of RFC 4648, with the leniency of Go's decoder:
    line breaks are skipped and stray low bits of the last character are ignored. */
module Base64Url {
  import opened Basics

  type Sextet = v: int | 0 <= v < 64

  function CharOf(v: Sextet): char {
    if v < 26 then (v + 'A' as int) as char
    else if v < 52 then (v - 26 + 'a' as int) as char
    else if v < 62 then (v - 52 + '0' as int) as char
    else if v == 62 then '-' else '_'
  }

  function ValueOf(c: char): Option<Sextet> {
    if 'A' <= c <= 'Z' then Some(c as int - 'A' as int)
    else if 'a' <= c <= 'z' then Some(c as int - 'a' as int + 26)
    else if '0' <= c <= '9' then Some(c as int - '0' as int + 52)
    else if c == '-' then Some(62)
    else if c == '_' then Some(63)
    else None
  }

  lemma CharBack(v: Sextet)
    ensures ValueOf(CharOf(v)) == Some(v) && CharOf(v) != '\r' && CharOf(v) != '\n'
  {
  }

  /** The sextets of a byte string. */
  function Sextets(b: Bytes): seq<Sextet> {
    if |b| == 0 then []
    else if |b| == 1 then [b[0] / 4, b[0] % 4 * 16]
    else if |b| == 2 then [b[0] / 4, b[0] % 4 * 16 + b[1] / 16, b[1] % 16 * 4]
    else [b[0] / 4, b[0] % 4 * 16 + b[1] / 16, b[1] % 16 * 4 + b[2] / 64, b[2] % 64] + Sextets(b[3..])
  }

  function Byte0(a: int, b: int): int { a * 4 + b / 16 }
  function Byte1(b: int, c: int): int { b % 16 * 16 + c / 4 }
  function Byte2(c: int, d: int): int { c % 4 * 64 + d }

  /** The bytes of a sextet string; one sextet alone is an error. */
  function FromSextets(s: seq<Sextet>): Option<Bytes> {
    if |s| == 0 then Some([])
    else if |s| == 1 then None
    else if |s| == 2 then Some([Byte0(s[0], s[1])])
    else if |s| == 3 then Some([Byte0(s[0], s[1]), Byte1(s[1], s[2])])
    else
      var rest := FromSextets(s[4..]);
      if rest.None? then None
      else Some([Byte0(s[0], s[1]), Byte1(s[1], s[2]), Byte2(s[2], s[3])] + rest.value)
  }

  /** Three bytes from their four sextets. */
  lemma BytesBack(a: Byte, b: Byte, c: Byte)
    ensures Byte0(a / 4, a % 4 * 16 + b / 16) == a
    ensures Byte1(a % 4 * 16 + b / 16, b % 16 * 4 + c / 64) == b
    ensures Byte2(b % 16 * 4 + c / 64, c % 64) == c
  {
    assert (a % 4 * 16 + b / 16) / 16 == a % 4 && (a % 4 * 16 + b / 16) % 16 == b / 16;
    assert (b % 16 * 4 + c / 64) / 4 == b % 16 && (b % 16 * 4 + c / 64) % 4 == c / 64;
  }

  lemma {:induction false} SextetsBack(b: Bytes)
    ensures FromSextets(Sextets(b)) == Some(b)
  {
    if |b| == 1 {
      BytesBack(b[0], 0, 0);
      assert b == [b[0]];
    } else if |b| == 2 {
      BytesBack(b[0], b[1], 0);
      assert b == [b[0], b[1]];
    } else if |b| >= 3 {
      BytesBack(b[0], b[1], b[2]);
      SextetsBack(b[3..]);
      assert Sextets(b)[4..] == Sextets(b[3..]);
      assert b == [b[0], b[1], b[2]] + b[3..];
    }
  }

  function Values(s: string): Option<seq<Sextet>> {
    if s == "" then Some([])
    else
      var v, rest := ValueOf(s[0]), Values(s[1..]);
      if v.Some? && rest.Some? then Some([v.value] + rest.value) else None
  }

  function CharF(): Sextet -> char { (v: Sextet) => CharOf(v) }
  function NotBreak(): char -> bool { (c: char) => c != '\r' && c != '\n' }

  function Encode(b: Bytes): string {
    Map(Sextets(b), CharF())
  }

  function Decode(s: string): Option<Bytes> {
    var v := Values(Filter(s, NotBreak()));
    if v.None? then None else FromSextets(v.value)
  }

  lemma {:induction false} TextBack(v: seq<Sextet>)
    ensures Values(Map(v, CharF())) == Some(v)
    ensures Filter(Map(v, CharF()), NotBreak()) == Map(v, CharF())
  {
    if v != [] {
      TextBack(v[1..]);
      CharBack(v[0]);
      assert Map(v, CharF())[1..] == Map(v[1..], CharF());
      assert v == [v[0]] + v[1..];
    }
  }

  /** Decoding an encoding gives the bytes back. */
  lemma RoundTrip(b: Bytes)
    ensures Decode(Encode(b)) == Some(b)
  {
    TextBack(Sextets(b));
    SextetsBack(b);
  }

  lemma {:induction false} ValuesOf(s: string)
    ensures Values(s).Some? <==> forall i :: 0 <= i < |s| ==> ValueOf(s[i]).Some?
    ensures Values(s).Some? ==> |Values(s).value| == |s| && forall i :: 0 <= i < |s| ==> CharOf(Values(s).value[i]) == s[i]
  {
    if s != "" {
      ValuesOf(s[1..]);
      if forall i :: 0 <= i < |s| ==> ValueOf(s[i]).Some? {
        assert forall i :: 0 <= i < |s[1..]| ==> s[1..][i] == s[i + 1];
      }
      if Values(s[1..]).Some? {
        assert forall i :: 0 < i < |s| ==> s[i] == s[1..][i - 1];
      }
    }
  }

  lemma {:induction false} SextetCount(s: seq<Sextet>)
    ensures FromSextets(s).Some? <==> |s| % 4 != 1
    ensures FromSextets(s).Some? ==> |FromSextets(s).value| == |s| * 3 / 4
  {
    if |s| >= 4 {
      SextetCount(s[4..]);
    }
  }

  predicate InAlphabet(c: char) {
    'A' <= c <= 'Z' || 'a' <= c <= 'z' || '0' <= c <= '9' || c == '-' || c == '_'
  }

  /** A text decodes if and only if, line breaks apart, it is made of the 64 characters
      and does not leave a single one over. */
  lemma DecodesIff(s: string)
    ensures var text := Filter(s, NotBreak());
            && (Decode(s).Some? <==> (forall i :: 0 <= i < |text| ==> InAlphabet(text[i])) && |text| % 4 != 1)
            && (Decode(s).Some? ==> |Decode(s).value| == |text| * 3 / 4)
  {
    var text := Filter(s, NotBreak());
    ValuesOf(text);
    if Values(text).Some? {
      SextetCount(Values(text).value);
    }
  }
}
