/** Invite nonces under concurrent validation. A call checks the nonce in one
    transaction and records it in another, so two calls may interleave. */
module Nonces {
  import opened Invite

  /** A call that passed its check, and whether it has recorded its nonce. */
  datatype Call = Call(nonce: Nonce, done: bool)

  /** `accepted` counts the calls that returned success, by nonce. */
  datatype State = State(saved: set<Nonce>, calls: map<nat, Call>, accepted: multiset<Nonce>)

  datatype Step =
    | Check(call: nat, token: Token, raw: string, now: int)
    | Save(call: nat)

  const START := State({}, map[], multiset{})

  /** A check that passes but for the nonce: unexpired, well formed and signed. */
  function Acceptable(ed: Ed25519): Step -> bool {
    (s: Step) => s.Check? && Validate(ed, s.token, s.raw, {}, s.now).Accepted?
  }

  /** The check of a new call passes; `good` is what it says apart from the nonce. */
  predicate Passes(s: State, good: Step -> bool, step: Step) {
    step.Check? && step.call !in s.calls && good(step) && step.token.nonce !in s.saved
  }

  /** That is what Validate decides with the nonces recorded so far. */
  lemma PassesIsValidate(ed: Ed25519, s: State, step: Step)
    requires step.Check? && step.call !in s.calls
    ensures Passes(s, Acceptable(ed), step) <==> Validate(ed, step.token, step.raw, s.saved, step.now).Accepted?
  {
  }

  predicate Records(s: State, step: Step) {
    step.Save? && step.call in s.calls && !s.calls[step.call].done
  }

  function Apply(s: State, good: Step -> bool, step: Step): State {
    if Passes(s, good, step) then s.(calls := s.calls[step.call := Call(step.token.nonce, false)])
    else if Records(s, step) then
      var n := s.calls[step.call].nonce;
      State(s.saved + {n}, s.calls[step.call := Call(n, true)], s.accepted + multiset{n})
    else s
  }

  /** The state after the first m steps. */
  function StateAt(good: Step -> bool, run: seq<Step>, m: nat): State
    requires m <= |run|
  {
    if m == 0 then START else Apply(StateAt(good, run, m - 1), good, run[m - 1])
  }

  function Exec(good: Step -> bool, run: seq<Step>): State {
    StateAt(good, run, |run|)
  }

  /** Every nonce was accepted at most once. */
  ghost predicate Once(s: State) {
    forall n: Nonce :: s.accepted[n] <= 1
  }

  /** A call records a nonce that is recorded already. */
  predicate Late(s: State, step: Step) {
    Records(s, step) && s.calls[step.call].nonce in s.saved
  }

  predicate LateAt(good: Step -> bool, run: seq<Step>, l: nat) {
    l < |run| && Late(StateAt(good, run, l), run[l])
  }

  lemma {:induction false} SavedIsAccepted(good: Step -> bool, run: seq<Step>, m: nat, n: Nonce)
    requires m <= |run|
    ensures var s := StateAt(good, run, m); n in s.saved <==> s.accepted[n] > 0
  {
    if m > 0 {
      SavedIsAccepted(good, run, m - 1, n);
    }
  }

  lemma OnceStep(good: Step -> bool, s: State, step: Step)
    requires Once(s)
    requires forall n: Nonce :: n in s.saved <==> s.accepted[n] > 0
    ensures Once(Apply(s, good, step)) <==> !Late(s, step)
  {
    var s' := Apply(s, good, step);
    if Records(s, step) {
      var n := s.calls[step.call].nonce;
      assert s'.accepted[n] == s.accepted[n] + 1;
      forall m: Nonce | m != n
        ensures s'.accepted[m] == s.accepted[m]
      {
      }
    }
  }

  lemma AcceptedGrows(good: Step -> bool, s: State, step: Step, n: Nonce)
    ensures s.accepted[n] <= Apply(s, good, step).accepted[n]
  {
  }

  lemma OnceNext(good: Step -> bool, run: seq<Step>, m: nat)
    requires m < |run|
    ensures Once(StateAt(good, run, m + 1)) <==> Once(StateAt(good, run, m)) && !LateAt(good, run, m)
  {
    var s := StateAt(good, run, m);
    forall n: Nonce
      ensures n in s.saved <==> s.accepted[n] > 0
    {
      SavedIsAccepted(good, run, m, n);
    }
    if Once(s) {
      OnceStep(good, s, run[m]);
    } else {
      var n: Nonce :| s.accepted[n] > 1;
      AcceptedGrows(good, s, run[m], n);
    }
  }

  lemma {:induction false} OnceIffNeverLate(good: Step -> bool, run: seq<Step>, m: nat)
    requires m <= |run|
    ensures Once(StateAt(good, run, m)) <==> forall l: nat :: l < m ==> !LateAt(good, run, l)
  {
    if m > 0 {
      OnceIffNeverLate(good, run, m - 1);
      OnceNext(good, run, m - 1);
    }
  }

  // ---- positions of the run ----

  /** The step at position i is the passing check of call c, on nonce n. */
  predicate ChecksAt(good: Step -> bool, run: seq<Step>, i: nat, c: nat, n: Nonce) {
    i < |run| && Passes(StateAt(good, run, i), good, run[i]) && run[i].call == c && run[i].token.nonce == n
  }

  /** The step at position k records the nonce of call c. */
  predicate SavesAt(good: Step -> bool, run: seq<Step>, k: nat, c: nat) {
    k < |run| && Records(StateAt(good, run, k), run[k]) && run[k].call == c
  }

  predicate Overlapping(good: Step -> bool, run: seq<Step>, i: nat, j: nat, k: nat, l: nat, c: nat, d: nat, n: Nonce) {
    && ChecksAt(good, run, i, c, n) && ChecksAt(good, run, j, d, n) && c != d
    && SavesAt(good, run, k, c) && SavesAt(good, run, l, d)
    && i < k && i < l && j < k && j < l
  }

  /** Two calls on one nonce both check before either of them records. */
  ghost predicate Overlap(good: Step -> bool, run: seq<Step>) {
    exists i: nat, j: nat, k: nat, l: nat, c: nat, d: nat, n: Nonce :: Overlapping(good, run, i, j, k, l, c, d, n)
  }

  /** A call under way checked at some position. */
  lemma {:induction false} CallChecked(good: Step -> bool, run: seq<Step>, m: nat, c: nat) returns (i: nat)
    requires m <= |run| && c in StateAt(good, run, m).calls
    ensures i < m && ChecksAt(good, run, i, c, StateAt(good, run, m).calls[c].nonce)
  {
    if m > 0 {
      if c in StateAt(good, run, m - 1).calls {
        i := CallChecked(good, run, m - 1, c);
      } else {
        i := m - 1;
      }
    }
  }

  /** A recorded nonce was recorded at some position, by a call that is done with it. */
  lemma {:induction false} NonceSaved(good: Step -> bool, run: seq<Step>, m: nat, n: Nonce) returns (k: nat, c: nat)
    requires m <= |run| && n in StateAt(good, run, m).saved
    ensures k < m && SavesAt(good, run, k, c) && StateAt(good, run, k).calls[c].nonce == n
    ensures c in StateAt(good, run, m).calls && StateAt(good, run, m).calls[c].done
  {
    if m > 0 {
      if n in StateAt(good, run, m - 1).saved {
        k, c := NonceSaved(good, run, m - 1, n);
      } else {
        k, c := m - 1, run[m - 1].call;
      }
    }
  }

  lemma {:induction false} SavedStays(good: Step -> bool, run: seq<Step>, k: nat, m: nat, n: Nonce)
    requires k <= m <= |run| && n in StateAt(good, run, k).saved
    ensures n in StateAt(good, run, m).saved
  {
    if k < m {
      SavedStays(good, run, k, m - 1, n);
    }
  }

  lemma {:induction false} NonceStays(good: Step -> bool, run: seq<Step>, k: nat, m: nat, c: nat)
    requires k <= m <= |run| && c in StateAt(good, run, k).calls
    ensures c in StateAt(good, run, m).calls && StateAt(good, run, m).calls[c].nonce == StateAt(good, run, k).calls[c].nonce
  {
    if k < m {
      NonceStays(good, run, k, m - 1, c);
    }
  }

  /** The nonce of a call at any point after its check is the one it checked. */
  lemma CheckedNonce(good: Step -> bool, run: seq<Step>, i: nat, m: nat, c: nat, n: Nonce)
    requires ChecksAt(good, run, i, c, n) && i < m <= |run|
    ensures c in StateAt(good, run, m).calls && StateAt(good, run, m).calls[c].nonce == n
  {
    NonceStays(good, run, i + 1, m, c);
  }

  lemma RecordedBy(good: Step -> bool, run: seq<Step>, i: nat, k: nat, c: nat, n: Nonce, l: nat)
    requires ChecksAt(good, run, i, c, n) && SavesAt(good, run, k, c) && i < k < l <= |run|
    ensures n in StateAt(good, run, l).saved
  {
    CheckedNonce(good, run, i, k, c, n);
    SavedStays(good, run, k + 1, l, n);
  }

  /** The later of two overlapping calls finds the nonce recorded. */
  lemma SecondIsLate(good: Step -> bool, run: seq<Step>, i: nat, j: nat, k: nat, l: nat, c: nat, d: nat, n: Nonce)
    requires ChecksAt(good, run, i, c, n) && ChecksAt(good, run, j, d, n)
    requires SavesAt(good, run, k, c) && SavesAt(good, run, l, d) && i < k < l && j < l
    ensures LateAt(good, run, l)
  {
    RecordedBy(good, run, i, k, c, n, l);
    CheckedNonce(good, run, j, l, d, n);
  }

  lemma OverlapIsLate(good: Step -> bool, run: seq<Step>, i: nat, j: nat, k: nat, l: nat, c: nat, d: nat, n: Nonce)
    requires Overlapping(good, run, i, j, k, l, c, d, n)
    ensures LateAt(good, run, k) || LateAt(good, run, l)
  {
    if k < l {
      SecondIsLate(good, run, i, j, k, l, c, d, n);
    } else {
      assert k != l;
      SecondIsLate(good, run, j, i, l, k, d, c, n);
    }
  }

  /** A nonce recorded by another call after the check of this one. */
  lemma LateOverlaps(good: Step -> bool, run: seq<Step>, l: nat)
    requires LateAt(good, run, l)
    ensures Overlap(good, run)
  {
    var d := run[l].call;
    var n := StateAt(good, run, l).calls[d].nonce;
    var j := CallChecked(good, run, l, d);
    var k, c := NonceSaved(good, run, l, n);
    if k < j {
      SavedStays(good, run, k + 1, j, n);
    }
    assert j != k;
    var i := CallChecked(good, run, k, c);
    assert Overlapping(good, run, i, j, k, l, c, d, n);
  }

  /** Each nonce is accepted at most once if and only if no two calls on one nonce both
      check it before either of them records it. */
  lemma OnceIffNoOverlap(good: Step -> bool, run: seq<Step>)
    ensures Once(Exec(good, run)) <==> !Overlap(good, run)
  {
    OnceIffNeverLate(good, run, |run|);
    if l: nat :| l < |run| && LateAt(good, run, l) {
      LateOverlaps(good, run, l);
    }
    if i: nat, j: nat, k: nat, l: nat, c: nat, d: nat, n: Nonce :| Overlapping(good, run, i, j, k, l, c, d, n) {
      OverlapIsLate(good, run, i, j, k, l, c, d, n);
    }
  }

  /** Every nonce accepted in a run was checked at some position with an unexpired token
      whose text verifies under the token's key. */
  lemma {:induction false} AcceptedWereSigned(ed: Ed25519, run: seq<Step>, m: nat, n: Nonce) returns (i: nat)
    requires m <= |run| && n in StateAt(Acceptable(ed), run, m).accepted
    ensures i < m && run[i].Check? && run[i].token.nonce == n
    ensures run[i].now <= run[i].token.expiresAt && SignedUnder(ed, run[i].token.publicKey, run[i].raw)
  {
    SavedIsAccepted(Acceptable(ed), run, m, n);
    var k, c := NonceSaved(Acceptable(ed), run, m, n);
    i := CallChecked(Acceptable(ed), run, k, c);
    AcceptedIffSigned(ed, run[i].token, run[i].raw, {}, run[i].now);
  }

  lemma {:induction false} SamePrefix(good: Step -> bool, run: seq<Step>, more: seq<Step>, m: nat)
    requires m <= |run|
    ensures StateAt(good, run + more, m) == StateAt(good, run, m)
  {
    if m > 0 {
      SamePrefix(good, run, more, m - 1);
    }
  }

  lemma Extend(good: Step -> bool, run: seq<Step>, step: Step)
    ensures Exec(good, run + [step]) == Apply(Exec(good, run), good, step)
  {
    SamePrefix(good, run, [step], |run|);
  }

  /** Two overlapping calls both accept any acceptable token. */
  lemma OverlapAcceptsTwice(ed: Ed25519, t: Token, raw: string, now: int, c: nat, d: nat) returns (run: seq<Step>)
    requires Validate(ed, t, raw, {}, now).Accepted? && c != d
    ensures Exec(Acceptable(ed), run).accepted == multiset{t.nonce, t.nonce}
  {
    run := BothSave(Acceptable(ed), Check(c, t, raw, now), Check(d, t, raw, now));
  }

  lemma BothSave(good: Step -> bool, a: Step, b: Step) returns (run: seq<Step>)
    requires a.Check? && b.Check? && good(a) && good(b) && a.call != b.call && a.token.nonce == b.token.nonce
    ensures Exec(good, run).accepted == multiset{a.token.nonce, a.token.nonce}
  {
    var n := a.token.nonce;
    Extend(good, [], a);
    run := [] + [a];
    assert Exec(good, run) == State({}, map[a.call := Call(n, false)], multiset{});
    Extend(good, run, b);
    run := run + [b];
    assert Exec(good, run) == State({}, map[a.call := Call(n, false), b.call := Call(n, false)], multiset{});
    Extend(good, run, Save(a.call));
    run := run + [Save(a.call)];
    assert Exec(good, run).calls == map[a.call := Call(n, true), b.call := Call(n, false)];
    Extend(good, run, Save(b.call));
    run := run + [Save(b.call)];
  }
}
