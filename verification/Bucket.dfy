/** A bbolt bucket: rows in strictly increasing byte order of their keys. */
module Bucket {
  import opened Basics

  /** bytes.Compare(a, b) < 0. */
  predicate Less(a: Bytes, b: Bytes) {
    |b| > 0 && (|a| == 0 || a[0] < b[0] || (a[0] == b[0] && Less(a[1..], b[1..])))
  }

  lemma {:induction false} LessIrreflexive(a: Bytes)
    ensures !Less(a, a)
    decreases |a|
  {
    if a != [] {
      LessIrreflexive(a[1..]);
    }
  }

  lemma {:induction false} LessTransitive(a: Bytes, b: Bytes, c: Bytes)
    requires Less(a, b) && Less(b, c)
    ensures Less(a, c)
    decreases |a|
  {
    if a != [] && a[0] == b[0] && b[0] == c[0] {
      LessTransitive(a[1..], b[1..], c[1..]);
    }
  }

  lemma {:induction false} LessTotal(a: Bytes, b: Bytes)
    ensures Less(a, b) || a == b || Less(b, a)
    decreases |a|
  {
    if a != [] && b != [] && a[0] == b[0] {
      LessTotal(a[1..], b[1..]);
      assert a == [a[0]] + a[1..] && b == [b[0]] + b[1..];
    }
  }

  /** A key that extends p is not below p. */
  lemma {:induction false} PrefixNotBelow(p: Bytes, k: Bytes)
    requires p <= k
    ensures !Less(k, p)
    decreases |p|
  {
    if p != [] {
      PrefixNotBelow(p[1..], k[1..]);
    }
  }

  /** The keys that extend p form one block: from p upward, nothing lacks the
      prefix before the last key that has it. */
  lemma {:induction false} PrefixBlock(p: Bytes, b: Bytes, c: Bytes)
    requires !Less(b, p) && !Less(c, b) && p <= c
    ensures p <= b
    decreases |p|
  {
    if p != [] {
      assert b != [] && b[0] == p[0];
      PrefixBlock(p[1..], b[1..], c[1..]);
      assert p == [p[0]] + p[1..] && b == [b[0]] + b[1..];
    }
  }

  datatype Row<V> = Row(key: Bytes, val: V)

  ghost predicate Sorted<V>(rows: seq<Row<V>>) {
    forall i, j :: 0 <= i < j < |rows| ==> Less(rows[i].key, rows[j].key)
  }

  /** Cursor.Seek: the position of the first row whose key is not below k. */
  function Seek<V>(rows: seq<Row<V>>, k: Bytes): (n: nat)
    ensures n <= |rows|
    ensures forall i :: 0 <= i < n ==> Less(rows[i].key, k)
    ensures n < |rows| ==> !Less(rows[n].key, k)
  {
    if rows == [] || !Less(rows[0].key, k) then 0 else 1 + Seek(rows[1..], k)
  }

  predicate Hit<V>(rows: seq<Row<V>>, k: Bytes) {
    var n := Seek(rows, k);
    n < |rows| && rows[n].key == k
  }

  function Get<V>(rows: seq<Row<V>>, k: Bytes): Option<V> {
    if Hit(rows, k) then Some(rows[Seek(rows, k)].val) else None
  }

  function Put<V>(rows: seq<Row<V>>, k: Bytes, v: V): seq<Row<V>> {
    if rows == [] then [Row(k, v)]
    else if Less(rows[0].key, k) then [rows[0]] + Put(rows[1..], k, v)
    else if rows[0].key == k then [Row(k, v)] + rows[1..]
    else [Row(k, v)] + rows
  }

  lemma SeekAbove<V>(rows: seq<Row<V>>, k: Bytes, i: nat)
    requires Sorted(rows) && Seek(rows, k) <= i < |rows|
    ensures !Less(rows[i].key, k)
  {
    var n := Seek(rows, k);
    if n < i && Less(rows[i].key, k) {
      LessTransitive(rows[n].key, rows[i].key, k);
    }
  }

  /** Looking a key up finds exactly the row that carries it. */
  lemma GetIsMembership<V>(rows: seq<Row<V>>, k: Bytes)
    requires Sorted(rows)
    ensures forall v :: Row(k, v) in rows <==> Get(rows, k) == Some(v)
    ensures Get(rows, k) == None <==> forall i :: 0 <= i < |rows| ==> rows[i].key != k
  {
    LessIrreflexive(k);
    var n := Seek(rows, k);
    forall i | 0 <= i < |rows| && rows[i].key == k
      ensures i == n
    {
    }
    if Hit(rows, k) {
      assert rows[n] in rows;
    }
  }

  lemma {:induction false} PutMember<V>(rows: seq<Row<V>>, k: Bytes, v: V, r: Row<V>)
    requires Sorted(rows)
    ensures r in Put(rows, k, v) <==> r == Row(k, v) || (r in rows && r.key != k)
  {
    if rows != [] {
      LessIrreflexive(k);
      assert rows == [rows[0]] + rows[1..];
      if Less(rows[0].key, k) {
        PutMember(rows[1..], k, v, r);
      } else {
        AboveAll(rows, k, r);
      }
    }
  }

  lemma PutMembers<V>(rows: seq<Row<V>>, k: Bytes, v: V)
    requires Sorted(rows)
    ensures forall r :: r in Put(rows, k, v) <==> r == Row(k, v) || (r in rows && r.key != k)
  {
    forall r
      ensures r in Put(rows, k, v) <==> r == Row(k, v) || (r in rows && r.key != k)
    {
      PutMember(rows, k, v, r);
    }
  }

  /** No row after the first carries a key that is not above the first one. */
  lemma AboveAll<V>(rows: seq<Row<V>>, k: Bytes, r: Row<V>)
    requires Sorted(rows) && rows != [] && !Less(rows[0].key, k)
    ensures r in rows[1..] ==> Less(k, r.key) && r.key != k
  {
    LessIrreflexive(k);
    LessTotal(rows[0].key, k);
    if r in rows[1..] {
      var i :| 0 <= i < |rows[1..]| && rows[1..][i] == r;
      assert rows[i + 1] == r;
      if rows[0].key != k {
        LessTransitive(k, rows[0].key, r.key);
      }
    }
  }

  lemma ConsSorted<V>(r: Row<V>, rows: seq<Row<V>>)
    requires Sorted(rows) && forall x :: x in rows ==> Less(r.key, x.key)
    ensures Sorted([r] + rows)
  {
    var s := [r] + rows;
    forall i, j | 0 <= i < j < |s|
      ensures Less(s[i].key, s[j].key)
    {
      assert s[j] == rows[j - 1] && rows[j - 1] in rows;
      assert i > 0 ==> s[i] == rows[i - 1];
    }
  }

  lemma {:induction false} PutSorted<V>(rows: seq<Row<V>>, k: Bytes, v: V)
    requires Sorted(rows)
    ensures Sorted(Put(rows, k, v))
  {
    if rows != [] {
      if Less(rows[0].key, k) {
        PutSorted(rows[1..], k, v);
        LessIrreflexive(rows[0].key);
        forall x | x in Put(rows[1..], k, v)
          ensures Less(rows[0].key, x.key)
        {
          PutMember(rows[1..], k, v, x);
          AboveAll(rows, rows[0].key, x);
        }
        ConsSorted(rows[0], Put(rows[1..], k, v));
      } else {
        LessTotal(rows[0].key, k);
        forall x | x in rows[1..]
          ensures Less(k, x.key)
        {
          AboveAll(rows, k, x);
        }
        ConsSorted(Row(k, v), rows[1..]);
        if rows[0].key != k {
          assert rows == [rows[0]] + rows[1..];
          ConsSorted(Row(k, v), rows);
        }
      }
    }
  }

  /** A written key reads back its value and every other key reads as before. */
  lemma GetPut<V>(rows: seq<Row<V>>, k: Bytes, v: V, k': Bytes)
    requires Sorted(rows)
    ensures Get(Put(rows, k, v), k') == if k' == k then Some(v) else Get(rows, k')
  {
    PutSorted(rows, k, v);
    PutMembers(rows, k, v);
    GetIsMembership(rows, k');
    GetIsMembership(Put(rows, k, v), k');
    assert Row(k, v) in Put(rows, k, v);
    match Get(rows, k') {
      case None =>
      case Some(w) => assert Row(k', w) in rows;
    }
    match Get(Put(rows, k, v), k') {
      case None =>
      case Some(w) => assert Row(k', w) in Put(rows, k, v);
    }
  }

  /** A sorted bucket is determined by what its keys read. */
  lemma {:induction false} Extensional<V>(a: seq<Row<V>>, b: seq<Row<V>>)
    requires Sorted(a) && Sorted(b)
    requires forall r :: r in a <==> r in b
    ensures a == b
    decreases |a|
  {
    if a != [] {
      assert a[0] in b;
      var j :| 0 <= j < |b| && b[j] == a[0];
      assert b[0] in a;
      var i :| 0 <= i < |a| && a[i] == b[0];
      if i > 0 && j > 0 {
        LessTransitive(a[0].key, a[i].key, a[0].key);
        LessIrreflexive(a[0].key);
      }
      assert a[0] == b[0];
      RestMembers(a);
      RestMembers(b);
      Extensional(a[1..], b[1..]);
      assert a == [a[0]] + a[1..] && b == [b[0]] + b[1..];
    } else {
      SomeMember(b);
    }
  }

  lemma SomeMember<T>(s: seq<T>)
    ensures s == [] || exists x :: x in s
  {
    if s != [] {
      assert s[0] in s;
    }
  }

  lemma RestMembers<V>(a: seq<Row<V>>)
    requires Sorted(a) && a != []
    ensures forall r :: r in a[1..] <==> r in a && r != a[0]
  {
    LessIrreflexive(a[0].key);
    forall r | r in a && r != a[0]
      ensures r in a[1..]
    {
      var i :| 0 <= i < |a| && a[i] == r;
      assert a[1..][i - 1] == r;
    }
  }

  function HasPrefix<V>(p: Bytes): (f: Row<V> -> bool) {
    (r: Row<V>) => p <= r.key
  }

  function LacksPrefix<V>(p: Bytes): (f: Row<V> -> bool) {
    (r: Row<V>) => !(p <= r.key)
  }

  /** The end of the block that starts at Seek(p). */
  function BlockEnd<V>(rows: seq<Row<V>>, p: Bytes, from: nat): (n: nat)
    requires from <= |rows|
    ensures from <= n <= |rows|
    ensures forall i :: from <= i < n ==> p <= rows[i].key
    ensures n < |rows| ==> !(p <= rows[n].key)
    decreases |rows| - from
  {
    if from == |rows| || !(p <= rows[from].key) then from else BlockEnd(rows, p, from + 1)
  }

  /** The rows from a cursor on, past the leading ones that have the prefix. */
  function DropBlock<V>(rows: seq<Row<V>>, p: Bytes): seq<Row<V>> {
    if rows == [] || !(p <= rows[0].key) then rows else DropBlock(rows[1..], p)
  }

  lemma {:induction false} DropIsSlice<V>(rows: seq<Row<V>>, p: Bytes, n: nat)
    requires n <= |rows|
    ensures DropBlock(rows[n..], p) == rows[BlockEnd(rows, p, n)..]
    decreases |rows| - n
  {
    if n < |rows| && p <= rows[n].key {
      assert rows[n..][1..] == rows[n + 1..];
      DropIsSlice(rows, p, n + 1);
    }
  }

  /** A row carries the prefix exactly when it lies between Seek and the end of the scan. */
  lemma InBlock<V>(rows: seq<Row<V>>, p: Bytes, i: nat)
    requires Sorted(rows) && i < |rows|
    ensures var n := Seek(rows, p); p <= rows[i].key <==> n <= i < BlockEnd(rows, p, n)
  {
    var n := Seek(rows, p);
    var m := BlockEnd(rows, p, n);
    if n <= i < m {
      assert p <= rows[i].key;
    } else if p <= rows[i].key {
      PrefixNotBelow(p, rows[i].key);
      assert m <= i;
      if m < i {
        SeekAbove(rows, p, m);
        LessAsymmetric(rows[m].key, rows[i].key);
        PrefixBlock(p, rows[m].key, rows[i].key);
      }
    }
  }

  lemma LessAsymmetric(a: Bytes, b: Bytes)
    requires Less(a, b)
    ensures !Less(b, a)
  {
    if Less(b, a) {
      LessTransitive(a, b, a);
      LessIrreflexive(a);
    }
  }

  lemma {:induction false} FilterKeepsSlice<T>(s: seq<T>, n: nat, m: nat, keep: T -> bool)
    requires n <= m <= |s|
    requires forall i :: 0 <= i < |s| ==> (keep(s[i]) <==> n <= i < m)
    ensures Filter(s, keep) == s[n..m]
  {
    if s != [] {
      var n', m' := if n == 0 then 0 else n - 1, if m == 0 then 0 else m - 1;
      FilterKeepsSlice(s[1..], n', m', keep);
      assert s[1..][n'..m'] == if m == 0 then [] else s[n' + 1..m];
    }
  }

  lemma {:induction false} FilterCutsSlice<T>(s: seq<T>, n: nat, m: nat, keep: T -> bool)
    requires n <= m <= |s|
    requires forall i :: 0 <= i < |s| ==> (keep(s[i]) <==> !(n <= i < m))
    ensures Filter(s, keep) == s[..n] + s[m..]
  {
    if s != [] {
      var n', m' := if n == 0 then 0 else n - 1, if m == 0 then 0 else m - 1;
      FilterCutsSlice(s[1..], n', m', keep);
      assert s[1..][..n'] == s[1..n' + 1] && s[1..][m'..] == s[m' + 1..];
    }
  }

  /** Seek-then-scan-while-prefix visits exactly the rows with the prefix, and
      cutting the scanned block out leaves exactly the others. */
  lemma ScanIsFilter<V>(rows: seq<Row<V>>, p: Bytes)
    requires Sorted(rows)
    ensures var n := Seek(rows, p); var m := BlockEnd(rows, p, n);
            && Filter(rows, HasPrefix(p)) == rows[n..m]
            && Filter(rows, LacksPrefix(p)) == rows[..n] + rows[m..]
  {
    var n := Seek(rows, p);
    var m := BlockEnd(rows, p, n);
    forall i | 0 <= i < |rows|
      ensures p <= rows[i].key <==> n <= i < m
    {
      InBlock(rows, p, i);
    }
    FilterKeepsSlice(rows, n, m, HasPrefix<V>(p));
    FilterCutsSlice(rows, n, m, LacksPrefix<V>(p));
  }

  lemma {:induction false} FilterSorted<V>(rows: seq<Row<V>>, keep: Row<V> -> bool)
    requires Sorted(rows)
    ensures Sorted(Filter(rows, keep))
    decreases |rows|
  {
    if rows != [] {
      FilterSorted(rows[1..], keep);
      var rest := Filter(rows[1..], keep);
      forall i | 0 <= i < |rest|
        ensures Less(rows[0].key, rest[i].key)
      {
        var j := FilterOrigin(rows[1..], keep, i);
      }
    }
  }
}
