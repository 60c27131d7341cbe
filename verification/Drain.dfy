/** Catalog exchange quiesces: handling messages never makes more of them than it takes. */
module Drain {
  import opened Exchange

  /** What a message counts while it waits on a pipe, and while its send is under way. */
  datatype Costs = Costs(queued: Msg -> nat, underWay: Msg -> nat)

  /** Two for every offer and one for every ack, wherever it is. */
  const IN_FLIGHT := Costs((m: Msg) => if m.Offer? then 2 else 1, (m: Msg) => if m.Offer? then 2 else 1)

  /** The steps an offer can still lead to: its send, its delivery, its ack's send and delivery. */
  const STEPS_LEFT := Costs((m: Msg) => if m.Offer? then 3 else 1, (m: Msg) => if m.Offer? then 4 else 2)

  function Weight(q: seq<Mail>, c: Costs): nat {
    if q == [] then 0 else c.queued(q[0].msg) + Weight(q[1..], c)
  }

  function SendWeight(s: seq<Sending>, c: Costs): nat {
    if s == [] then 0 else c.underWay(s[0].mail.msg) + SendWeight(s[1..], c)
  }

  ghost function PipesWeight(net: Net, pipes: set<Pipe>, c: Costs): nat {
    if pipes == {} then 0
    else
      var p :| p in pipes;
      Weight(Queue(net, p), c) + PipesWeight(net, pipes - {p}, c)
  }

  ghost function Load(net: Net, c: Costs): nat {
    PipesWeight(net, net.pipes.Keys, c) + SendWeight(net.sending, c)
  }

  lemma {:induction false} WeightSnoc(q: seq<Mail>, m: Mail, c: Costs)
    ensures Weight(q + [m], c) == Weight(q, c) + c.queued(m.msg)
  {
    if q == [] {
      assert (q + [m])[1..] == [];
    } else {
      assert (q + [m])[1..] == q[1..] + [m];
      WeightSnoc(q[1..], m, c);
    }
  }

  lemma {:induction false} SendWeightAppend(s: seq<Sending>, t: seq<Sending>, c: Costs)
    ensures SendWeight(s + t, c) == SendWeight(s, c) + SendWeight(t, c)
  {
    if s == [] {
      assert s + t == t;
    } else {
      assert (s + t)[1..] == s[1..] + t;
      SendWeightAppend(s[1..], t, c);
    }
  }

  lemma SendWeightRemove(s: seq<Sending>, i: nat, c: Costs)
    requires i < |s|
    ensures SendWeight(s, c) == SendWeight(RemoveAt(s, i), c) + c.underWay(s[i].mail.msg)
  {
    SendWeightAppend(s[..i], s[i + 1..], c);
    SendWeightAppend(s[..i], s[i..], c);
    assert s == s[..i] + s[i..];
  }

  lemma {:induction false} PipesSplit(net: Net, pipes: set<Pipe>, p: Pipe, c: Costs)
    requires p in pipes
    ensures PipesWeight(net, pipes, c) == Weight(Queue(net, p), c) + PipesWeight(net, pipes - {p}, c)
  {
    var q :| q in pipes && PipesWeight(net, pipes, c) == Weight(Queue(net, q), c) + PipesWeight(net, pipes - {q}, c);
    if q != p {
      PipesSplit(net, pipes - {q}, p, c);
      PipesSplit(net, pipes - {p}, q, c);
      assert pipes - {q} - {p} == pipes - {p} - {q};
    }
  }

  lemma {:induction false} PipesSame(net: Net, net': Net, pipes: set<Pipe>, c: Costs)
    requires forall p :: p in pipes ==> Queue(net, p) == Queue(net', p)
    ensures PipesWeight(net, pipes, c) == PipesWeight(net', pipes, c)
  {
    if pipes != {} {
      var p :| p in pipes;
      PipesSplit(net, pipes, p, c);
      PipesSplit(net', pipes, p, c);
      PipesSame(net, net', pipes - {p}, c);
    }
  }

  /** A change of one open pipe changes the load by as much. */
  lemma OnePipe(net: Net, net': Net, p: Pipe, c: Costs)
    requires p in net.pipes && net'.pipes.Keys == net.pipes.Keys
    requires forall q :: q in net.pipes && q != p ==> Queue(net', q) == Queue(net, q)
    ensures PipesWeight(net', net'.pipes.Keys, c) + Weight(Queue(net, p), c)
         == PipesWeight(net, net.pipes.Keys, c) + Weight(Queue(net', p), c)
  {
    var pipes := net.pipes.Keys;
    PipesSplit(net, pipes, p, c);
    PipesSplit(net', pipes, p, c);
    PipesSame(net, net', pipes - {p}, c);
  }

  lemma SendLoad(net: Net, i: nat, ok: bool, c: Costs)
    requires i < |net.sending|
    ensures var m := net.sending[i].mail.msg;
            Load(Apply(net, Send(i, ok)), c) + c.underWay(m) ==
              Load(net, c) + if Arrives(net, i, ok) then c.queued(m) else 0
  {
    var s := net.sending[i];
    var net' := Apply(net, Send(i, ok));
    SendWeightRemove(net.sending, i, c);
    if Arrives(net, i, ok) {
      WeightSnoc(net.pipes[s.pipe], s.mail, c);
      assert net'.pipes.Keys == net.pipes.Keys;
      OnePipe(net, net', s.pipe, c);
    } else {
      PipesSame(net, net', net.pipes.Keys, c);
    }
  }

  lemma DeliverLoad(net: Net, p: Pipe, now: int, c: Costs)
    requires Enabled(net, Deliver(p, now))
    ensures Load(Apply(net, Deliver(p, now)), c) + c.queued(Queue(net, p)[0].msg)
         == Load(net, c) + SendWeight(Reply(net, p, now), c)
  {
    var net' := Apply(net, Deliver(p, now));
    SendWeightAppend(net.sending, Reply(net, p, now), c);
    assert net'.pipes.Keys == net.pipes.Keys;
    OnePipe(net, net', p, c);
  }

  /** Handling an offer costs at most one ack; handling an ack costs nothing. */
  lemma ReplyWeight(net: Net, p: Pipe, now: int, c: Costs)
    requires Enabled(net, Deliver(p, now))
    ensures var r := Reply(net, p, now);
            || r == []
            || (Queue(net, p)[0].msg.Offer? && r[0].mail.msg.Ack? && SendWeight(r, c) == c.underWay(r[0].mail.msg))
  {
    var r := Reply(net, p, now);
    if r != [] {
      assert r[1..] == [];
    }
  }

  /** Each delivery strictly lowers 2 * (offers in flight) + (acks in flight), and no
      send raises it. */
  lemma DeliveryDrains(net: Net, s: Step)
    requires (s.Deliver? || s.Send?) && Enabled(net, s)
    ensures s.Deliver? ==> Load(Apply(net, s), IN_FLIGHT) < Load(net, IN_FLIGHT)
    ensures s.Send? ==> Load(Apply(net, s), IN_FLIGHT) <= Load(net, IN_FLIGHT)
  {
    if s.Deliver? {
      DeliverLoad(net, s.pipe, s.now, IN_FLIGHT);
      ReplyWeight(net, s.pipe, s.now, IN_FLIGHT);
    } else {
      SendLoad(net, s.i, s.ok, IN_FLIGHT);
    }
  }

  lemma StepsDrain(net: Net, s: Step)
    requires (s.Deliver? || s.Send?) && Enabled(net, s)
    ensures Load(Apply(net, s), STEPS_LEFT) < Load(net, STEPS_LEFT)
  {
    if s.Deliver? {
      DeliverLoad(net, s.pipe, s.now, STEPS_LEFT);
      ReplyWeight(net, s.pipe, s.now, STEPS_LEFT);
    } else {
      SendLoad(net, s.i, s.ok, STEPS_LEFT);
    }
  }

  /** Nothing but sends under way and deliveries. */
  ghost predicate DrainRun(net: Net, steps: seq<Step>)
    decreases |steps|
  {
    steps != [] ==>
      && (steps[0].Deliver? || steps[0].Send?) && Enabled(net, steps[0])
      && DrainRun(Apply(net, steps[0]), steps[1..])
  }

  /** With no new local change, connection or listing, only so many steps can follow. */
  lemma {:induction false} DeliveriesAreBounded(net: Net, steps: seq<Step>)
    requires DrainRun(net, steps)
    ensures |steps| <= Load(net, STEPS_LEFT)
    decreases |steps|
  {
    if steps != [] {
      StepsDrain(net, steps[0]);
      DeliveriesAreBounded(Apply(net, steps[0]), steps[1..]);
    }
  }

  ghost predicate Quiet(net: Net) {
    net.sending == [] && forall p :: p in net.pipes && Joins(net, p) ==> net.pipes[p] == []
  }

  function After(net: Net, steps: seq<Step>): Net
    decreases |steps|
  {
    if steps == [] then net else After(Apply(net, steps[0]), steps[1..])
  }

  /** From every state the network can be drained to silence by sends and deliveries alone. */
  lemma {:induction false} Quiesces(net: Net, now: int) returns (steps: seq<Step>)
    ensures DrainRun(net, steps) && Quiet(After(net, steps))
    decreases Load(net, STEPS_LEFT)
  {
    if Quiet(net) {
      steps := [];
    } else {
      var s: Step;
      if net.sending != [] {
        s := Send(0, true);
      } else {
        var p :| p in net.pipes && Joins(net, p) && net.pipes[p] != [];
        s := Deliver(p, now);
      }
      StepsDrain(net, s);
      var rest := Quiesces(Apply(net, s), now);
      steps := [s] + rest;
      assert steps[1..] == rest;
    }
  }
}
