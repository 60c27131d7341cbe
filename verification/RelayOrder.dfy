/** The order of what the relay writes: every answer has its own push before it, and
    exactly when a rendezvous reaches a node before its registration is confirmed. */
module RelayOrder {
  import opened Basics
  import opened RelayServer

  // ---- answers and pushes ----

  predicate IsPush(w: Write, requester: nat, target: nat) {
    w.Push? && w.to == target && w.requester == requester
  }

  predicate IsAnswer(w: Write, requester: nat, target: nat) {
    w.Answer? && w.to == requester && w.target == target
  }

  function Pushes(log: seq<Write>, r: nat, t: nat): nat {
    if log == [] then 0 else Pushes(log[..|log| - 1], r, t) + if IsPush(log[|log| - 1], r, t) then 1 else 0
  }

  function Answers(log: seq<Write>, r: nat, t: nat): nat {
    if log == [] then 0 else Answers(log[..|log| - 1], r, t) + if IsAnswer(log[|log| - 1], r, t) then 1 else 0
  }

  lemma CountSnoc(log: seq<Write>, w: Write, r: nat, t: nat)
    ensures Pushes(log + [w], r, t) == Pushes(log, r, t) + if IsPush(w, r, t) then 1 else 0
    ensures Answers(log + [w], r, t) == Answers(log, r, t) + if IsAnswer(w, r, t) then 1 else 0
  {
    assert (log + [w])[..|log|] == log;
  }

  /** The requester has pushed to the target and not answered yet. */
  function Owed(v: Server, r: nat, t: nat): nat {
    if r < |v.sessions| && v.sessions[r].phase.ToRequester? && v.sessions[r].phase.target == t then 1 else 0
  }

  /** A step writes at most once. */
  lemma OneWrite(v: Server, s: Step)
    ensures var v' := Apply(v, s);
            v'.log == v.log || (|v'.log| == |v.log| + 1 && v'.log[..|v.log|] == v.log)
  {
  }

  /** What is owed grows only by a push and is paid only by an answer. */
  lemma OwedChange(v: Server, s: Step, r: nat, t: nat)
    ensures var v' := Apply(v, s);
            if v'.log == v.log || v'.log == [] then Owed(v', r, t) <= Owed(v, r, t)
            else
              var w := v'.log[|v'.log| - 1];
              Owed(v', r, t) + (if IsAnswer(w, r, t) then 1 else 0) <= Owed(v, r, t) + if IsPush(w, r, t) then 1 else 0
  {
  }

  lemma OwedStep(v: Server, s: Step, r: nat, t: nat)
    requires Answers(v.log, r, t) + Owed(v, r, t) <= Pushes(v.log, r, t)
    ensures var v' := Apply(v, s); Answers(v'.log, r, t) + Owed(v', r, t) <= Pushes(v'.log, r, t)
  {
    var v' := Apply(v, s);
    OwedChange(v, s, r, t);
    if v'.log != v.log {
      OneWrite(v, s);
      var w := v'.log[|v.log|];
      assert v'.log == v.log + [w];
      CountSnoc(v.log, w, r, t);
    }
  }

  lemma {:induction false} AlwaysOwed(run: seq<Step>, r: nat, t: nat)
    ensures var v := Exec(run); Answers(v.log, r, t) + Owed(v, r, t) <= Pushes(v.log, r, t)
  {
    if run != [] {
      AlwaysOwed(run[..|run| - 1], r, t);
      OwedStep(Exec(run[..|run| - 1]), run[|run| - 1], r, t);
    }
  }

  /** At every point of the log, a requester has been answered about a target at most as
      often as the requester has been pushed to it. */
  lemma {:induction false} AnswersWithinPushes(run: seq<Step>, n: nat, r: nat, t: nat)
    requires n <= |Exec(run).log|
    ensures Answers(Exec(run).log[..n], r, t) <= Pushes(Exec(run).log[..n], r, t)
  {
    var log := Exec(run).log;
    if n == |log| {
      assert log[..n] == log;
      AlwaysOwed(run, r, t);
    } else {
      var init := run[..|run| - 1];
      OneWrite(Exec(init), run[|run| - 1]);
      AnswersWithinPushes(init, n, r, t);
      assert log[..n] == Exec(init).log[..n];
    }
  }

  // ---- what a node reads first ----

  /** The first write to session t. */
  function FirstTo(log: seq<Write>, t: nat): Option<Write> {
    if log == [] then None
    else
      var first := FirstTo(log[..|log| - 1], t);
      if first.Some? then first else if log[|log| - 1].to == t then Some(log[|log| - 1]) else None
  }

  lemma FirstSnoc(log: seq<Write>, w: Write, t: nat)
    ensures FirstTo(log + [w], t) == if FirstTo(log, t).Some? then FirstTo(log, t) else if w.to == t then Some(w) else None
  {
    assert (log + [w])[..|log|] == log;
  }

  predicate Confirmed(log: seq<Write>, t: nat) {
    Confirm(t) in log
  }

  /** The step pushes a rendezvous to session t before its registration is confirmed. */
  predicate Early(v: Server, s: Step, t: nat) {
    && s.SendTarget? && s.ok && s.s < |v.sessions| && v.sessions[s.s].phase.ToTarget?
    && v.sessions[s.s].phase.target == t && !Confirmed(v.log, t)
  }

  ghost predicate SomeEarly(run: seq<Step>, t: nat) {
    run != [] && (SomeEarly(run[..|run| - 1], t) || Early(Exec(run[..|run| - 1]), run[|run| - 1], t))
  }

  /** A session past its confirmation was confirmed, and any other one has at most
      pushes written to it. */
  ghost predicate InPhase(v: Server, t: nat) {
    && (t < |v.sessions| && !v.sessions[t].phase.Confirming? && !v.sessions[t].phase.Ended? ==> Confirmed(v.log, t))
    && (Confirmed(v.log, t) ==> FirstTo(v.log, t).Some?)
    && (!Confirmed(v.log, t) ==> FirstTo(v.log, t).None? || FirstTo(v.log, t).value.Push?)
  }

  lemma InPhaseStep(v: Server, s: Step, t: nat)
    requires InPhase(v, t) && Inv(v)
    ensures InPhase(Apply(v, s), t)
  {
    var v' := Apply(v, s);
    if v'.log != v.log {
      OneWrite(v, s);
      var w := v'.log[|v.log|];
      assert v'.log == v.log + [w];
      FirstSnoc(v.log, w, t);
    }
  }

  lemma {:induction false} AlwaysInPhase(run: seq<Step>, t: nat)
    ensures InPhase(Exec(run), t)
  {
    if run != [] {
      AlwaysInPhase(run[..|run| - 1], t);
      RelayIsSafe(run[..|run| - 1]);
      InPhaseStep(Exec(run[..|run| - 1]), run[|run| - 1], t);
    }
  }

  /** The first message a registering node reads is a rendezvous, which makes its Connect
      fail, if and only if one was pushed to it before its confirmation was written. */
  lemma {:induction false} ConnectFailsIffPushedEarly(run: seq<Step>, t: nat)
    ensures var first := FirstTo(Exec(run).log, t);
            && (first.Some? ==> first.value.Confirm? || first.value.Push?)
            && ((first.Some? && first.value.Push?) <==> SomeEarly(run, t))
  {
    if run != [] {
      var init, s := run[..|run| - 1], run[|run| - 1];
      var v := Exec(init);
      ConnectFailsIffPushedEarly(init, t);
      AlwaysInPhase(init, t);
      FirstStep(v, s, t);
    }
  }

  lemma FirstStep(v: Server, s: Step, t: nat)
    requires InPhase(v, t)
    ensures var first, first' := FirstTo(v.log, t), FirstTo(Apply(v, s).log, t);
            && (first.Some? ==> first' == first)
            && (first.None? && first'.Some? ==> first'.value.Confirm? || (first'.value.Push? && Early(v, s, t)))
            && (Early(v, s, t) && first.None? ==> first'.Some? && first'.value.Push?)
            && (Early(v, s, t) && first.Some? ==> first.value.Push?)
  {
    var v' := Apply(v, s);
    if v'.log != v.log {
      OneWrite(v, s);
      var w := v'.log[|v.log|];
      assert v'.log == v.log + [w];
      FirstSnoc(v.log, w, t);
    }
  }
}
