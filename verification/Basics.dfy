/** Bytes, 32-byte identifiers and the few sequence operations every component shares. */
module Basics {

  type Byte = b: int | 0 <= b < 0x100
  type Bytes = seq<Byte>

  /** A NodeID or a FileID: 32 bytes. */
  type Id = s: Bytes | |s| == 32 witness seq(32, _ => 0)

  datatype Option<+T> = None | Some(value: T)

  function Filter<T>(s: seq<T>, keep: T -> bool): (r: seq<T>)
    ensures |r| <= |s|
  {
    if s == [] then []
    else if keep(s[0]) then [s[0]] + Filter(s[1..], keep)
    else Filter(s[1..], keep)
  }

  function Map<T, U>(s: seq<T>, f: T -> U): (r: seq<U>)
    ensures |r| == |s|
    ensures forall i :: 0 <= i < |s| ==> r[i] == f(s[i])
  {
    if s == [] then [] else [f(s[0])] + Map(s[1..], f)
  }

  /** Where a kept element came from. */
  lemma {:induction false} FilterOrigin<T>(s: seq<T>, keep: T -> bool, i: nat) returns (j: nat)
    requires i < |Filter(s, keep)|
    ensures j < |s| && s[j] == Filter(s, keep)[i] && keep(s[j])
  {
    if keep(s[0]) && i == 0 {
      j := 0;
    } else {
      j := FilterOrigin(s[1..], keep, if keep(s[0]) then i - 1 else i);
      j := j + 1;
    }
  }

  /** Where a kept element goes. */
  lemma {:induction false} FilterImage<T>(s: seq<T>, keep: T -> bool, j: nat) returns (i: nat)
    requires j < |s| && keep(s[j])
    ensures i < |Filter(s, keep)| && Filter(s, keep)[i] == s[j]
  {
    if j == 0 {
      i := 0;
    } else {
      i := FilterImage(s[1..], keep, j - 1);
      i := if keep(s[0]) then i + 1 else i;
    }
  }

  lemma FilterMembers<T>(s: seq<T>, keep: T -> bool)
    ensures var r := Filter(s, keep);
            && (forall i :: 0 <= i < |r| ==> r[i] in s && keep(r[i]))
            && (forall j :: 0 <= j < |s| && keep(s[j]) ==> s[j] in r)
  {
    var r := Filter(s, keep);
    forall i | 0 <= i < |r|
      ensures r[i] in s && keep(r[i])
    {
      var j := FilterOrigin(s, keep, i);
    }
    forall j | 0 <= j < |s| && keep(s[j])
      ensures s[j] in r
    {
      var i := FilterImage(s, keep, j);
    }
  }

  lemma {:induction false} FilterAppend<T>(a: seq<T>, b: seq<T>, keep: T -> bool)
    ensures Filter(a + b, keep) == Filter(a, keep) + Filter(b, keep)
  {
    if a == [] {
      assert a + b == b;
    } else {
      assert (a + b)[1..] == a[1..] + b;
      FilterAppend(a[1..], b, keep);
    }
  }

  lemma {:induction false} FilterAll<T>(s: seq<T>, keep: T -> bool)
    requires forall i :: 0 <= i < |s| ==> keep(s[i])
    ensures Filter(s, keep) == s
  {
    if s != [] {
      FilterAll(s[1..], keep);
    }
  }

  lemma {:induction false} FilterNone<T>(s: seq<T>, keep: T -> bool)
    requires forall i :: 0 <= i < |s| ==> !keep(s[i])
    ensures Filter(s, keep) == []
  {
    if s != [] {
      FilterNone(s[1..], keep);
    }
  }

  /** Filtering twice is filtering once by the conjunction. */
  lemma {:induction false} FilterTwice<T>(s: seq<T>, p: T -> bool, q: T -> bool, both: T -> bool)
    requires forall x :: x in s ==> (both(x) <==> p(x) && q(x))
    ensures Filter(Filter(s, p), q) == Filter(s, both)
  {
    if s != [] {
      FilterTwice(s[1..], p, q, both);
      if p(s[0]) {
        assert ([s[0]] + Filter(s[1..], p))[1..] == Filter(s[1..], p);
      }
    }
  }

  lemma {:induction false} FilterSame<T>(s: seq<T>, p: T -> bool, q: T -> bool)
    requires forall x :: x in s ==> (p(x) <==> q(x))
    ensures Filter(s, p) == Filter(s, q)
  {
    if s != [] {
      FilterSame(s[1..], p, q);
    }
  }

  /** A predicate and its negation split a sequence into two order-preserving halves. */
  lemma {:induction false} FilterPartition<T>(s: seq<T>, p: T -> bool, q: T -> bool)
    requires forall x :: x in s ==> (p(x) <==> !q(x))
    ensures multiset(Filter(s, p)) + multiset(Filter(s, q)) == multiset(s)
  {
    if s != [] {
      FilterPartition(s[1..], p, q);
      assert multiset(s) == multiset{s[0]} + multiset(s[1..]) by { assert s == [s[0]] + s[1..]; }
      if p(s[0]) {
        assert multiset(Filter(s, p)) == multiset{s[0]} + multiset(Filter(s[1..], p));
        assert Filter(s, q) == Filter(s[1..], q);
      } else {
        assert Filter(s, p) == Filter(s[1..], p);
        assert multiset(Filter(s, q)) == multiset{s[0]} + multiset(Filter(s[1..], q));
      }
    }
  }

  lemma {:induction false} MapAppend<T, U>(a: seq<T>, b: seq<T>, f: T -> U)
    ensures Map(a + b, f) == Map(a, f) + Map(b, f)
  {
  }

  lemma Assoc<T>(a: seq<T>, b: seq<T>, c: seq<T>)
    ensures a + (b + c) == a + b + c
  {
  }

  lemma TakeAppend<T>(a: seq<T>, b: seq<T>, k: nat)
    requires k <= |a| + |b|
    ensures (a + b)[..k] == if k < |a| then a[..k] else a + b[..k - |a|]
  {
  }
}
