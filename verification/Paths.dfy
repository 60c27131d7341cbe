/** Base names of slash-separated paths. */
module Paths {

  /** filepath.Base on a slash-separated path. */
  function TrimSlashes(s: string): string {
    if s != "" && s[|s| - 1] == '/' then TrimSlashes(s[..|s| - 1]) else s
  }

  function AfterLastSlash(s: string): string {
    if s == "" || s[|s| - 1] == '/' then "" else AfterLastSlash(s[..|s| - 1]) + [s[|s| - 1]]
  }

  function Base(path: string): string {
    if path == "" then "."
    else if TrimSlashes(path) == "" then "/"
    else AfterLastSlash(TrimSlashes(path))
  }

  lemma {:induction false} AfterLastSlashClean(s: string)
    ensures '/' !in AfterLastSlash(s)
  {
    if s != "" && s[|s| - 1] != '/' {
      AfterLastSlashClean(s[..|s| - 1]);
    }
  }

  /** A base name holds no slash, unless the path is nothing but slashes. */
  lemma BaseIsAName(path: string)
    ensures Base(path) == "/" || '/' !in Base(path)
  {
    AfterLastSlashClean(TrimSlashes(path));
  }

  /** n is the last part of the path and starts at position a: nothing but slashes
      follows, and the path starts there or a slash precedes it. */
  predicate PartAt(path: string, a: nat, n: string) {
    && n != "" && '/' !in n && a + |n| <= |path| && path[a..a + |n|] == n
    && (a == 0 || path[a - 1] == '/')
    && forall j :: a + |n| <= j < |path| ==> path[j] == '/'
  }

  ghost predicate LastPart(path: string, n: string) {
    exists a: nat :: PartAt(path, a, n)
  }

  /** A path has at most one last part. */
  lemma LastPartUnique(path: string, a: nat, n: string, b: nat, m: string)
    requires PartAt(path, a, n) && PartAt(path, b, m)
    ensures a == b && n == m
  {
    assert path[a + |n| - 1] == n[|n| - 1] && path[b + |m| - 1] == m[|m| - 1];
  }

  lemma {:induction false} AfterLastSlashIsPart(s: string)
    requires s != "" && s[|s| - 1] != '/'
    ensures |AfterLastSlash(s)| <= |s| && PartAt(s, |s| - |AfterLastSlash(s)|, AfterLastSlash(s))
  {
    AfterLastSlashClean(s);
    var init := s[..|s| - 1];
    if init == "" || init[|init| - 1] == '/' {
      assert AfterLastSlash(s) == [s[|s| - 1]];
    } else {
      AfterLastSlashIsPart(init);
    }
  }

  lemma {:induction false} TrimmedPart(s: string)
    ensures TrimSlashes(s) <= s && forall j :: |TrimSlashes(s)| <= j < |s| ==> s[j] == '/'
    ensures TrimSlashes(s) != "" ==> TrimSlashes(s)[|TrimSlashes(s)| - 1] != '/'
  {
    if s != "" && s[|s| - 1] == '/' {
      TrimmedPart(s[..|s| - 1]);
    }
  }

  /** The base name is the last part of the path, if it has one. */
  lemma BaseIsLastPart(path: string)
    ensures LastPart(path, Base(path)) || forall n :: !LastPart(path, n)
    ensures forall n :: LastPart(path, n) ==> Base(path) == n
    ensures (forall n :: !LastPart(path, n)) ==> Base(path) == if path == "" then "." else "/"
  {
    var t := TrimSlashes(path);
    TrimmedPart(path);
    if t != "" {
      AfterLastSlashIsPart(t);
      var a, m := |t| - |AfterLastSlash(t)|, AfterLastSlash(t);
      assert PartAt(path, a, m);
      forall n | LastPart(path, n)
        ensures n == m
      {
        var b: nat :| PartAt(path, b, n);
        LastPartUnique(path, a, m, b, n);
      }
    } else {
      forall n, b: nat
        ensures !PartAt(path, b, n)
      {
        assert n != "" && b + |n| <= |path| ==> path[b..b + |n|][0] == path[b];
      }
    }
  }
}
