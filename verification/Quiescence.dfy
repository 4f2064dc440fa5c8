/**
 * Forwarding terminates: a network nobody publishes into runs dry, whatever the order of its steps.
 */
module Quiescence {
  import opened Types
  import opened Lists
  import opened RegistrySpec
  import opened Network

  /** A queued message costs one dispatch, and if it is the task's own, up to one copy per task. */
  function Weight(c: Config, t: TaskId, m: Msg): nat {
    if m.publisher == t then c.tasks.mux + 1 else 1
  }

  function QueueWeight(c: Config, t: TaskId, ms: seq<Msg>): nat {
    if ms == [] then 0 else Weight(c, t, ms[0]) + QueueWeight(c, t, ms[1..])
  }

  /** The copies the message in hand can still produce. */
  function HandWeight(c: Config, t: TaskId, h: Hand): nat {
    if h.Busy? && h.m.publisher == t && |h.sent| <= c.tasks.mux then c.tasks.mux - |h.sent| else 0
  }

  function TaskWeight(c: Config, s: Net, t: TaskId): nat
    requires WF(c, s) && t < c.tasks.mux
  {
    QueueWeight(c, t, s.box[t]) + HandWeight(c, t, s.hand[t])
  }

  function Weights(c: Config, s: Net): seq<nat>
    requires WF(c, s)
  {
    seq(c.tasks.mux, t requires 0 <= t < c.tasks.mux => TaskWeight(c, s, t))
  }

  /** The message-level measure: an upper bound on the dispatches still to come. */
  function Dispatches(c: Config, s: Net): nat
    requires WF(c, s)
  {
    Sum(Weights(c, s))
  }

  function HandSteps(h: Hand): nat {
    if h.Busy? then |h.todo| + |h.calls| + 1 else 0
  }

  function Pace(s: Net): seq<nat> { Map(s.hand, HandSteps) }

  /** `k` taken `n` times. */
  function Times(k: nat, n: nat): nat {
    if n == 0 then 0 else k + Times(k, n - 1)
  }

  /** The step-level measure: a dispatch takes at most |fwd| + |rows| + 2 steps. */
  function Measure(c: Config, s: Net): nat
    requires WF(c, s)
  {
    Times(|c.fwd| + |c.rows| + 2, Dispatches(c, s)) + Sum(Pace(s))
  }

  lemma {:induction false} QueueWeightSnoc(c: Config, t: TaskId, ms: seq<Msg>, m: Msg)
    ensures QueueWeight(c, t, ms + [m]) == QueueWeight(c, t, ms) + Weight(c, t, m)
  {
    if ms == [] {
    } else {
      assert (ms + [m])[1..] == ms[1..] + [m];
      QueueWeightSnoc(c, t, ms[1..], m);
    }
  }

  /** Every step of a consumer, as its effect on the two measures. */
  predicate Consumes(a: Action) { a.Take? || a.Examine? || a.Invoke? || a.Finish? }

  lemma TakeWeighs(c: Config, s: Net, t: TaskId)
    requires WF(c, s) && Enabled(c, s, Take(t))
    ensures Dispatches(c, Apply(c, s, Take(t))) + 1 == Dispatches(c, s)
  {
    var s' := Apply(c, s, Take(t));
    var v := TaskWeight(c, s', t);
    assert Weights(c, s') == Weights(c, s)[t := v];
    SumUpdate(Weights(c, s), t, v);
  }

  /** Copies are served to distinct tasks other than the sender, so there is always room for one more. */
  lemma RoomForCopy(mux: U32, sent: set<TaskId>, u: TaskId)
    requires u < mux && u !in sent && forall v :: v in sent ==> v < mux
    ensures |sent + {u}| == |sent| + 1 <= mux
  {
    BoundedSize(sent + {u}, mux);
  }

  lemma {:induction false} BoundedSize(a: set<TaskId>, n: U32)
    requires forall v :: v in a ==> v < n
    ensures |a| <= n
    decreases n
  {
    if n == 0 {
      assert a == {};
    } else {
      var b := a - {n - 1};
      BoundedSize(b, n - 1);
      assert a <= b + {n - 1};
    }
  }

  lemma ExamineWeighs(c: Config, s: Net, t: TaskId, ok: bool)
    requires Base(c, s) && Enabled(c, s, Examine(t, ok))
    ensures Dispatches(c, Apply(c, s, Examine(t, ok))) <= Dispatches(c, s)
  {
    var s' := Apply(c, s, Examine(t, ok));
    var ws := Weights(c, s);
    if Copies(c, s, t) {
      CopyIsLegit(c, s, t);
      assert TaskOk(c, s, t);
      var h, u := s.hand[t], Deref(s.ram, s.hand[t].todo[0]).sub;
      RoomForCopy(c.tasks.mux, h.sent, u);
      QueueWeightSnoc(c, u, s.box[u], h.m);
      var wt, wu := TaskWeight(c, s', t), TaskWeight(c, s', u);
      assert wt + 1 == ws[t] && wu <= ws[u] + 1;
      assert Weights(c, s') == ws[t := wt][u := wu];
      SumUpdate(ws, t, wt);
      SumUpdate(ws[t := wt], u, wu);
    } else {
      assert Weights(c, s') == ws;
    }
  }

  lemma FinishWeighs(c: Config, s: Net, a: Action)
    requires WF(c, s) && Enabled(c, s, a) && (a.Invoke? || a.Finish?)
    ensures Dispatches(c, Apply(c, s, a)) <= Dispatches(c, s)
  {
    var s' := Apply(c, s, a);
    var v := TaskWeight(c, s', a.t);
    assert Weights(c, s') == Weights(c, s)[a.t := v];
    SumUpdate(Weights(c, s), a.t, v);
  }

  /** A consumer's step changes only that consumer's remaining steps. */
  lemma PaceStep(c: Config, s: Net, a: Action)
    requires ForwardIndex(c.rows, c.fwd) && WF(c, s) && Enabled(c, s, a) && Consumes(a)
    ensures var s' := Apply(c, s, a);
            if a.Take? then Sum(Pace(s')) <= Sum(Pace(s)) + |c.fwd| + |c.rows| + 1
            else Sum(Pace(s')) + 1 == Sum(Pace(s))
  {
    var s' := Apply(c, s, a);
    if a.Take? { BeginOk(c, a.t, s.box[a.t][0]); }
    var v := HandSteps(s'.hand[a.t]);
    assert Pace(s') == Pace(s)[a.t := v];
    SumUpdate(Pace(s), a.t, v);
  }

  /**
   * Each dispatch strictly lowers the message weight, no other consumer step raises it, and every step lowers the
   * measure.
   */
  lemma StepDecreases(c: Config, s: Net, a: Action)
    requires ForwardIndex(c.rows, c.fwd) && Base(c, s) && Enabled(c, s, a) && Consumes(a)
    ensures a.Take? ==> Dispatches(c, Apply(c, s, a)) < Dispatches(c, s)
    ensures Dispatches(c, Apply(c, s, a)) <= Dispatches(c, s)
    ensures Measure(c, Apply(c, s, a)) < Measure(c, s)
  {
    hide Apply, Dispatches, Pace, Times;
    PaceStep(c, s, a);
    var s' := Apply(c, s, a);
    match a {
      case Take(t) => TakeWeighs(c, s, t);
      case Examine(t, ok) => ExamineWeighs(c, s, t, ok);
      case Invoke(t) => FinishWeighs(c, s, a);
      case Finish(t) => FinishWeighs(c, s, a);
    }
    LexDecreases(|c.fwd| + |c.rows| + 2, Dispatches(c, s), Dispatches(c, s'), Sum(Pace(s)), Sum(Pace(s')));
  }

  lemma LexDecreases(k: nat, d: nat, d': nat, p: nat, p': nat)
    requires (d' < d && p' < p + k) || (d' <= d && p' < p)
    ensures Times(k, d') + p' < Times(k, d) + p
  {
    if d' < d { TimesMonotone(k, d', d - 1); } else { assert d' == d; }
  }

  lemma {:induction false} TimesMonotone(k: nat, x: nat, y: nat)
    requires x <= y
    ensures Times(k, x) <= Times(k, y)
  {
    if x == y {
    } else {
      TimesMonotone(k, x, y - 1);
    }
  }

  /** The consumer steps of a run: all but publications and toggles. */
  function Steps(acts: seq<Action>): nat {
    if acts == [] then 0 else (if acts[0].Publish? || acts[0].Flag? then 0 else 1) + Steps(acts[1..])
  }

  lemma ToggleWeighsNothing(c: Config, s: Net, a: Action)
    requires WF(c, s) && Enabled(c, s, a) && a.Flag?
    ensures Measure(c, Apply(c, s, a)) == Measure(c, s)
  {
    assert Weights(c, Apply(c, s, a)) == Weights(c, s);
  }

  lemma {:induction false} StepsAreBounded(c: Config, s: Net, acts: seq<Action>)
    requires ForwardIndex(c.rows, c.fwd) && Base(c, s) && Runs(c, s, acts)
    requires forall a :: a in acts ==> !a.Publish?
    ensures Steps(acts) + Measure(c, Exec(c, s, acts)) <= Measure(c, s)
    decreases acts
  {
    if acts == [] {
    } else {
      BaseStep(c, s, acts[0]);
      StepsAreBounded(c, Apply(c, s, acts[0]), acts[1..]);
      if Consumes(acts[0]) { StepDecreases(c, s, acts[0]); } else { ToggleWeighsNothing(c, s, acts[0]); }
    }
  }

  /**
   * From any reachable state, a run into which nobody publishes has no more consumer steps than the
   * measure of that state, however many toggles and refusals are mixed in.
   */
  lemma RunsAreBounded(c: Config, before: seq<Action>, acts: seq<Action>)
    requires ForwardIndex(c.rows, c.fwd) && Runs(c, Start(c), before) && Runs(c, Exec(c, Start(c), before), acts)
    requires forall a :: a in acts ==> !a.Publish?
    ensures var s := Exec(c, Start(c), before); Steps(acts) + Measure(c, Exec(c, s, acts)) <= Measure(c, s)
  {
    StartInvariants(c);
    RunKeepsOrder(c, Start(c), before);
    StepsAreBounded(c, Exec(c, Start(c), before), acts);
  }

  /** Until the network is quiescent some consumer can step, and a forward it attempts may be accepted. */
  lemma Progress(c: Config, s: Net) returns (a: Action)
    requires WF(c, s) && !Quiescent(s)
    ensures Consumes(a) && Enabled(c, s, a) && (a.Examine? ==> a.ok)
  {
    if t :| 0 <= t < |s.hand| && s.hand[t].Busy? {
      if s.hand[t].todo != [] {
        a := Examine(t, true);
      } else if s.hand[t].calls != [] {
        a := Invoke(t);
      } else {
        a := Finish(t);
      }
    } else {
      var t :| 0 <= t < |s.box| && s.box[t] != [];
      a := Take(t);
    }
  }

  lemma {:induction false} Drains(c: Config, s: Net) returns (acts: seq<Action>)
    requires ForwardIndex(c.rows, c.fwd) && Base(c, s)
    ensures Runs(c, s, acts) && Quiescent(Exec(c, s, acts))
    ensures forall a :: a in acts ==> Consumes(a) && (a.Examine? ==> a.ok)
    decreases Measure(c, s)
  {
    if Quiescent(s) {
      acts := [];
    } else {
      var a := Progress(c, s);
      BaseStep(c, s, a);
      StepDecreases(c, s, a);
      var rest := Drains(c, Apply(c, s, a));
      acts := [a] + rest;
      assert acts[1..] == rest;
    }
  }

  /** Every reachable state can be drained by consumer steps alone, with every copy accepted. */
  lemma EveryStateDrains(c: Config, before: seq<Action>) returns (acts: seq<Action>)
    requires ForwardIndex(c.rows, c.fwd) && Runs(c, Start(c), before)
    ensures Runs(c, Exec(c, Start(c), before), acts) && Quiescent(Exec(c, Exec(c, Start(c), before), acts))
    ensures forall a :: a in acts ==> Consumes(a) && (a.Examine? ==> a.ok)
  {
    StartInvariants(c);
    RunKeepsOrder(c, Start(c), before);
    acts := Drains(c, Exec(c, Start(c), before));
  }
}
