/**
 * The tasks as a network: one mailbox and one consumer per task. A consumer's dispatch is broken
 * into the steps other threads can observe: take a message, examine one forward entry (possibly
 * sending a copy), run one callback entry, finish. Publications, toggles and the steps of all
 * tasks interleave freely.
 */
module Network {
  import opened Types
  import opened Lists
  import opened RegistrySpec

  /** Fixed for a run: the registered tasks, the sorted table (its keys) and the pointer index. */
  datatype Config = Config(tasks: Tasks, rows: seq<Entry>, fwd: seq<nat>)

  /** What a consumer is doing: the pointers and callback rows still ahead of it, and `forwarded[]`. */
  datatype Hand = Idle | Busy(m: Msg, todo: seq<nat>, sent: set<TaskId>, calls: seq<nat>)

  datatype Net = Net(
    ram: seq<Entry>,           // the table with its current flags
    box: seq<seq<Msg>>,        // mailboxes
    hand: seq<Hand>,
    arrived: seq<seq<Msg>>,    // history: every message accepted into a mailbox
    taken: seq<seq<Msg>>,      // history: every message a consumer received
    log: seq<seq<Event>>)      // history: forward attempts and callback runs of each task

  datatype Action =
    | Publish(p: TaskId, m: Msg, ok: bool)
    | Flag(c: Toggle)
    | Take(t: TaskId)
    | Examine(t: TaskId, ok: bool)
    | Invoke(t: TaskId)
    | Finish(t: TaskId)

  /** The rows of one triple, as positions in the table. */
  function TriplePositions(rows: seq<Entry>, n: nat, s: TaskId, p: TaskId, id: U32): seq<nat>
    requires n <= |rows|
  {
    if n == 0 then []
    else TriplePositions(rows, n - 1, s, p, id) + (if OnTriple(rows[n - 1], s, p, id) then [n - 1] else [])
  }

  /** The state of a dispatch that has just taken `m` from t's mailbox. */
  function Begin(c: Config, t: TaskId, m: Msg): Hand {
    Busy(m, if m.publisher == t then PairPointers(c.rows, c.fwd, t, m.id) else [], {},
         TriplePositions(c.rows, |c.rows|, t, m.publisher, m.id))
  }

  predicate WF(c: Config, s: Net) {
    && |s.box| == |s.hand| == |s.arrived| == |s.taken| == |s.log| == c.tasks.mux
    && |s.ram| == |c.rows|
  }

  predicate Enabled(c: Config, s: Net, a: Action)
    requires WF(c, s)
  {
    match a
    case Publish(p, m, ok) => p < c.tasks.mux && m.publisher == p && (ok ==> c.tasks.Known(p))
    case Flag(_) => true
    case Take(t) => t < c.tasks.mux && s.hand[t].Idle? && s.box[t] != []
    case Examine(t, _) => t < c.tasks.mux && s.hand[t].Busy? && s.hand[t].todo != []
    case Invoke(t) => t < c.tasks.mux && s.hand[t].Busy? && s.hand[t].todo == [] && s.hand[t].calls != []
    case Finish(t) => t < c.tasks.mux && s.hand[t].Busy? && s.hand[t].todo == [] && s.hand[t].calls == []
  }

  function Arrive(s: Net, t: TaskId, m: Msg): Net
    requires t < |s.box| == |s.arrived|
  {
    s.(box := s.box[t := s.box[t] + [m]], arrived := s.arrived[t := s.arrived[t] + [m]])
  }

  /** Whether the next forward entry of a busy task gets a copy. */
  predicate Copies(c: Config, s: Net, t: TaskId)
    requires WF(c, s) && t < c.tasks.mux && s.hand[t].Busy? && s.hand[t].todo != []
  {
    var e := Deref(s.ram, s.hand[t].todo[0]);
    Wants(c.tasks, t, s.hand[t].m, e) && e.sub !in s.hand[t].sent
  }

  function Apply(c: Config, s: Net, a: Action): (s': Net)
    requires WF(c, s) && Enabled(c, s, a)
    ensures WF(c, s')
  {
    match a
    case Publish(p, m, ok) => if ok then Arrive(s, p, m) else s
    case Flag(g) => s.(ram := SwitchAll(g, s.ram))
    case Take(t) =>
      var m := s.box[t][0];
      s.(box := s.box[t := s.box[t][1..]], taken := s.taken[t := s.taken[t] + [m]], hand := s.hand[t := Begin(c, t, m)])
    case Examine(t, ok) =>
      var h := s.hand[t];
      var u := Deref(s.ram, h.todo[0]).sub;
      if Copies(c, s, t) then
        var s1 := s.(hand := s.hand[t := h.(todo := h.todo[1..], sent := h.sent + {u})],
                     log := s.log[t := s.log[t] + [Forward(u, h.m)]]);
        if ok then Arrive(s1, u, h.m) else s1
      else s.(hand := s.hand[t := h.(todo := h.todo[1..])])
    case Invoke(t) =>
      var h := s.hand[t];
      s.(hand := s.hand[t := h.(calls := h.calls[1..])],
         log := s.log[t := s.log[t] + CallOf(t, h.m, Deref(s.ram, h.calls[0]))])
    case Finish(t) => s.(hand := s.hand[t := Idle])
  }

  predicate Runs(c: Config, s: Net, acts: seq<Action>)
    requires WF(c, s)
    decreases acts
  {
    acts == [] || (Enabled(c, s, acts[0]) && Runs(c, Apply(c, s, acts[0]), acts[1..]))
  }

  function Exec(c: Config, s: Net, acts: seq<Action>): (s': Net)
    requires WF(c, s) && Runs(c, s, acts)
    ensures WF(c, s')
    decreases acts
  {
    if acts == [] then s else Exec(c, Apply(c, s, acts[0]), acts[1..])
  }

  /** Start of a run: empty mailboxes, idle consumers, the flags the table was built with. */
  function Start(c: Config): (s: Net)
    ensures WF(c, s)
  {
    var none := seq(c.tasks.mux, _ => []);
    var quiet := seq(c.tasks.mux, _ => []);
    Net(c.rows, none, seq(c.tasks.mux, _ => Idle), none, none, quiet)
  }

  predicate Quiescent(s: Net) {
    (forall t :: 0 <= t < |s.box| ==> s.box[t] == []) && (forall t :: 0 <= t < |s.hand| ==> s.hand[t].Idle?)
  }

  // ---- Mailbox order and provenance: every run ----

  /** A message at t is t's own, or a copy that a registry row (t, publisher, id) asked for. */
  predicate Legit(c: Config, t: TaskId, m: Msg) {
    m.publisher < c.tasks.mux
    && (m.publisher != t ==> exists e :: e in c.rows && OnTriple(e, t, m.publisher, m.id))
  }

  predicate SameKeys(c: Config, s: Net)
    requires WF(c, s)
  {
    forall i :: 0 <= i < |s.ram| ==> s.ram[i].(active := true) == c.rows[i].(active := true)
  }

  predicate HandOk(c: Config, s: Net, t: TaskId)
    requires WF(c, s) && t < c.tasks.mux
  {
    s.hand[t].Busy? ==>
      var h := s.hand[t];
      && s.taken[t] != [] && s.taken[t][|s.taken[t]| - 1] == h.m
      && (h.m.publisher != t ==> h.todo == [] && h.sent == {})
      && (forall u :: u in h.sent ==> u < c.tasks.mux && u != t)
      && (forall i :: i in h.todo ==> i < |s.ram|) && (forall i :: i in h.calls ==> i < |s.ram|)
      && |h.todo| <= |c.fwd| && |h.calls| <= |c.rows|
  }

  predicate TaskOk(c: Config, s: Net, t: TaskId)
    requires WF(c, s) && t < c.tasks.mux
  {
    && s.arrived[t] == s.taken[t] + s.box[t]
    && HandOk(c, s, t)
    && (forall m :: m in s.arrived[t] ==> Legit(c, t, m))
  }

  ghost predicate Base(c: Config, s: Net) {
    WF(c, s) && SameKeys(c, s) && forall t: TaskId :: t < c.tasks.mux ==> TaskOk(c, s, t)
  }

  lemma {:induction false} PositionsCount(rows: seq<Entry>, n: nat, s: TaskId, p: TaskId, id: U32)
    requires n <= |rows|
    ensures |TriplePositions(rows, n, s, p, id)| <= n && forall i :: i in TriplePositions(rows, n, s, p, id) ==> i < n
  {
    if n == 0 {
    } else {
      PositionsCount(rows, n - 1, s, p, id);
    }
  }

  lemma BeginOk(c: Config, t: TaskId, m: Msg)
    requires ForwardIndex(c.rows, c.fwd)
    ensures var h := Begin(c, t, m);
            |h.todo| <= |c.fwd| && |h.calls| <= |c.rows| && forall i :: i in h.todo || i in h.calls ==> i < |c.rows|
  {
    PositionsCount(c.rows, |c.rows|, t, m.publisher, m.id);
  }

  /** The row behind a copy is a registry row for the copy's triple. */
  lemma CopyIsLegit(c: Config, s: Net, t: TaskId)
    requires Base(c, s) && t < c.tasks.mux && s.hand[t].Busy? && s.hand[t].todo != [] && Copies(c, s, t)
    ensures var u := Deref(s.ram, s.hand[t].todo[0]).sub;
            u < c.tasks.mux && u != t && s.hand[t].m.publisher == t && Legit(c, u, s.hand[t].m)
  {
    var i := s.hand[t].todo[0];
    assert TaskOk(c, s, t) && i in s.hand[t].todo;
    assert s.ram[i].(active := true) == c.rows[i].(active := true);
    assert c.rows[i] in c.rows && OnTriple(c.rows[i], s.ram[i].sub, t, s.hand[t].m.id);
  }

  lemma BaseStep(c: Config, s: Net, a: Action)
    requires ForwardIndex(c.rows, c.fwd) && Base(c, s) && Enabled(c, s, a)
    ensures Base(c, Apply(c, s, a))
  {
    var s' := Apply(c, s, a);
    forall t: TaskId | t < c.tasks.mux ensures TaskOk(c, s', t) {
      BaseTask(c, s, a, t);
    }
  }

  lemma BaseTask(c: Config, s: Net, a: Action, t: TaskId)
    requires ForwardIndex(c.rows, c.fwd) && Base(c, s) && Enabled(c, s, a) && t < c.tasks.mux
    ensures TaskOk(c, Apply(c, s, a), t)
  {
    assert TaskOk(c, s, t);
    match a
    case Publish(p, m, ok) =>
    case Flag(_) =>
    case Take(v) => BaseTake(c, s, v, t);
    case Examine(v, ok) => BaseExamine(c, s, v, ok, t);
    case Invoke(v) => BaseInvoke(c, s, v, t);
    case Finish(v) =>
  }

  lemma BaseInvoke(c: Config, s: Net, v: TaskId, t: TaskId)
    requires WF(c, s) && Enabled(c, s, Invoke(v)) && t < c.tasks.mux && TaskOk(c, s, t)
    ensures TaskOk(c, Apply(c, s, Invoke(v)), t)
  {
    assert forall i :: i in s.hand[v].calls[1..] ==> i in s.hand[v].calls;
  }

  lemma BaseTake(c: Config, s: Net, v: TaskId, t: TaskId)
    requires ForwardIndex(c.rows, c.fwd) && WF(c, s) && Enabled(c, s, Take(v)) && t < c.tasks.mux && TaskOk(c, s, t)
    ensures TaskOk(c, Apply(c, s, Take(v)), t)
  {
    BeginOk(c, v, s.box[v][0]);
    if v == t { assert s.box[t] == [s.box[t][0]] + s.box[t][1..]; }
  }

  lemma BaseExamine(c: Config, s: Net, v: TaskId, ok: bool, t: TaskId)
    requires Base(c, s) && Enabled(c, s, Examine(v, ok)) && t < c.tasks.mux
    ensures TaskOk(c, Apply(c, s, Examine(v, ok)), t)
  {
    var s' := Apply(c, s, Examine(v, ok));
    assert TaskOk(c, s, v) && TaskOk(c, s, t);
    var h := s.hand[v];
    assert forall i :: i in h.todo[1..] ==> i in h.todo;
    if Copies(c, s, v) {
      CopyIsLegit(c, s, v);
      var u := Deref(s.ram, h.todo[0]).sub;
      if t == v {
        assert s'.hand[t] == h.(todo := h.todo[1..], sent := h.sent + {u}) && s'.taken == s.taken;
      } else {
        assert s'.hand[t] == s.hand[t];
      }
    }
  }

  /** Every forward of the history was of the task's own message, to another task. */
  predicate ForwardsOwn(s: Net, t: TaskId)
    requires t < |s.log|
  {
    forall ev :: ev in s.log[t] && ev.Forward? ==> ev.msg.publisher == t && ev.to != t
  }

  lemma ForwardsOwnStep(c: Config, s: Net, a: Action, t: TaskId)
    requires Base(c, s) && Enabled(c, s, a) && t < c.tasks.mux && ForwardsOwn(s, t)
    ensures ForwardsOwn(Apply(c, s, a), t)
  {
    if a.Examine? && Copies(c, s, a.t) { CopyIsLegit(c, s, a.t); }
  }

  lemma {:induction false} RunKeepsForwards(c: Config, s: Net, acts: seq<Action>, t: TaskId)
    requires ForwardIndex(c.rows, c.fwd) && Base(c, s) && Runs(c, s, acts) && t < c.tasks.mux && ForwardsOwn(s, t)
    ensures Base(c, Exec(c, s, acts)) && ForwardsOwn(Exec(c, s, acts), t)
    decreases acts
  {
    if acts == [] {
    } else {
      BaseStep(c, s, acts[0]);
      ForwardsOwnStep(c, s, acts[0], t);
      RunKeepsForwards(c, Apply(c, s, acts[0]), acts[1..], t);
    }
  }

  /**
   * No forwarding loops: in every run, drops and toggles included, each queued message is the task's own
   * or was asked for by a row of the registry, and no task has ever forwarded a message it did not publish.
   */
  lemma NoForwardingLoops(c: Config, acts: seq<Action>, t: TaskId)
    requires ForwardIndex(c.rows, c.fwd) && Runs(c, Start(c), acts) && t < c.tasks.mux
    ensures var s := Exec(c, Start(c), acts);
            && (forall m :: m in s.box[t] ==> Legit(c, t, m))
            && (forall ev :: ev in s.log[t] && ev.Forward? ==> ev.msg.publisher == t && ev.to != t)
            && (s.hand[t].Busy? && s.hand[t].m.publisher != t ==> s.hand[t].todo == [] && s.hand[t].sent == {})
  {
    StartInvariants(c);
    RunKeepsForwards(c, Start(c), acts, t);
    var s := Exec(c, Start(c), acts);
    assert TaskOk(c, s, t);
    forall m | m in s.box[t] ensures Legit(c, t, m) {
      assert m in s.arrived[t];
    }
  }

  // ---- Per-publisher order: every run, drops and toggles included ----

  function FromPub(ms: seq<Msg>, p: TaskId): seq<Msg> {
    if ms == [] then []
    else FromPub(ms[..|ms| - 1], p) + (if ms[|ms| - 1].publisher == p then [ms[|ms| - 1]] else [])
  }

  lemma FromPubSnoc(ms: seq<Msg>, m: Msg, p: TaskId)
    ensures FromPub(ms + [m], p) == if m.publisher == p then FromPub(ms, p) + [m] else FromPub(ms, p)
  {
    assert (ms + [m])[..|ms|] == ms;
  }

  lemma {:induction false} FromPubAppend(a: seq<Msg>, b: seq<Msg>, p: TaskId)
    ensures FromPub(a + b, p) == FromPub(a, p) + FromPub(b, p)
  {
    if b == [] {
      assert a + b == a;
    } else {
      assert (a + b)[..|a + b| - 1] == a + b[..|b| - 1];
      FromPubAppend(a, b[..|b| - 1], p);
    }
  }

  /**
   * The messages of p that p has finished offering to t: its own messages taken so far, except
   * the one in hand while t has not been served.
   */
  function Offered(c: Config, s: Net, p: TaskId, t: TaskId): seq<Msg>
    requires WF(c, s) && p < c.tasks.mux && HandOk(c, s, p)
  {
    if s.hand[p].Busy? && s.hand[p].m.publisher == p && t !in s.hand[p].sent
    then FromPub(s.taken[p][..|s.taken[p]| - 1], p)
    else FromPub(s.taken[p], p)
  }

  ghost predicate OrderAt(c: Config, s: Net, p: TaskId, t: TaskId)
    requires WF(c, s) && p < c.tasks.mux && t < c.tasks.mux && HandOk(c, s, p)
  {
    p != t ==> Subsequence(FromPub(s.arrived[t], p), Offered(c, s, p, t))
  }

  ghost predicate Order(c: Config, s: Net)
    requires Base(c, s)
  {
    forall p: TaskId, t: TaskId :: p < c.tasks.mux && t < c.tasks.mux && TaskOk(c, s, p) ==> OrderAt(c, s, p, t)
  }

  /** What the message in hand adds to the offers. */
  lemma OfferOne(c: Config, s: Net, p: TaskId)
    requires WF(c, s) && p < c.tasks.mux && HandOk(c, s, p) && s.hand[p].Busy? && s.hand[p].m.publisher == p
    ensures FromPub(s.taken[p], p) == FromPub(s.taken[p][..|s.taken[p]| - 1], p) + [s.hand[p].m]
  {
    assert s.taken[p] == s.taken[p][..|s.taken[p]| - 1] + [s.hand[p].m];
  }

  /** The task p is about to offer its own message to t: by a copy, or by finishing without one. */
  predicate Pending(s: Net, p: TaskId, t: TaskId)
    requires p < |s.hand|
  {
    s.hand[p].Busy? && s.hand[p].m.publisher == p && t !in s.hand[p].sent
  }

  /** Step `a` settles p's message in hand as far as t is concerned. */
  predicate Settles(c: Config, s: Net, a: Action, p: TaskId, t: TaskId)
    requires WF(c, s) && Enabled(c, s, a) && p < c.tasks.mux
  {
    Pending(s, p, t)
    && (a == Finish(p) || (a.Examine? && a.t == p && Copies(c, s, p) && Deref(s.ram, s.hand[p].todo[0]).sub == t))
  }

  /** What `CopyIsLegit` establishes about the copy step `a` is about to make, if any. */
  predicate CopyOk(c: Config, s: Net, a: Action)
    requires WF(c, s) && Enabled(c, s, a)
  {
    a.Examine? && Copies(c, s, a.t) ==>
      var u := Deref(s.ram, s.hand[a.t].todo[0]).sub;
      u < c.tasks.mux && u != a.t && s.hand[a.t].m.publisher == a.t
  }

  /** A step that settles p's message for t adds it to the offers, and to t's arrivals if a copy was accepted. */
  lemma OfferSettled(c: Config, s: Net, a: Action, p: TaskId, t: TaskId)
    requires WF(c, s) && Enabled(c, s, a) && CopyOk(c, s, a) && p < c.tasks.mux && t < c.tasks.mux && p != t
    requires HandOk(c, s, p) && HandOk(c, Apply(c, s, a), p) && Settles(c, s, a, p, t)
    ensures var s' := Apply(c, s, a);
            && Offered(c, s', p, t) == Offered(c, s, p, t) + [s.hand[p].m]
            && FromPub(s'.arrived[t], p)
               == if a.Examine? && a.ok then FromPub(s.arrived[t], p) + [s.hand[p].m] else FromPub(s.arrived[t], p)
  {
    if a.Finish? { FinishEffect(c, s, p, t); } else { ExamineEffect(c, s, p, a.ok, t, p, t); }
  }

  /** No other step touches the pair (p, t). */
  lemma OfferUntouched(c: Config, s: Net, a: Action, p: TaskId, t: TaskId)
    requires WF(c, s) && Enabled(c, s, a) && CopyOk(c, s, a) && p < c.tasks.mux && t < c.tasks.mux && p != t
    requires HandOk(c, s, p) && HandOk(c, Apply(c, s, a), p) && !Settles(c, s, a, p, t)
    ensures var s' := Apply(c, s, a);
            Offered(c, s', p, t) == Offered(c, s, p, t) && FromPub(s'.arrived[t], p) == FromPub(s.arrived[t], p)
  {
    match a
    case Publish(q, m, ok) => PublishEffect(c, s, q, m, ok, p, t);
    case Flag(_) =>
    case Take(v) => if v == p { OfferedTake(c, s, p, t); }
    case Examine(v, ok) =>
      if Copies(c, s, v) { ExamineEffect(c, s, v, ok, Deref(s.ram, s.hand[v].todo[0]).sub, p, t); }
    case Invoke(v) =>
    case Finish(v) => if v == p { FinishEffect(c, s, p, t); }
  }

  lemma PublishEffect(c: Config, s: Net, q: TaskId, m: Msg, ok: bool, p: TaskId, t: TaskId)
    requires WF(c, s) && Enabled(c, s, Publish(q, m, ok)) && p < c.tasks.mux && t < c.tasks.mux && p != t
    ensures var s' := Apply(c, s, Publish(q, m, ok));
            s'.hand == s.hand && s'.taken == s.taken && FromPub(s'.arrived[t], p) == FromPub(s.arrived[t], p)
  {
    FromPubSnoc(s.arrived[q], m, p);
  }

  lemma FinishEffect(c: Config, s: Net, p: TaskId, t: TaskId)
    requires WF(c, s) && Enabled(c, s, Finish(p)) && t < c.tasks.mux && HandOk(c, s, p)
             && HandOk(c, Apply(c, s, Finish(p)), p)
    ensures Offered(c, Apply(c, s, Finish(p)), p, t)
         == if Pending(s, p, t) then Offered(c, s, p, t) + [s.hand[p].m] else Offered(c, s, p, t)
  {
    if Pending(s, p, t) { OfferOne(c, s, p); }
  }

  /** Taking a message offers nothing yet. */
  lemma OfferedTake(c: Config, s: Net, p: TaskId, t: TaskId)
    requires WF(c, s) && Enabled(c, s, Take(p)) && HandOk(c, s, p) && HandOk(c, Apply(c, s, Take(p)), p)
    ensures Offered(c, Apply(c, s, Take(p)), p, t) == Offered(c, s, p, t)
  {
    FromPubSnoc(s.taken[p], s.box[p][0], p);
    var taken' := Apply(c, s, Take(p)).taken[p];
    assert taken'[..|taken'| - 1] == s.taken[p];
  }

  lemma ExamineArrives(c: Config, s: Net, v: TaskId, ok: bool, u: TaskId, p: TaskId, t: TaskId)
    requires WF(c, s) && Enabled(c, s, Examine(v, ok)) && Copies(c, s, v) && t < c.tasks.mux
    requires u == Deref(s.ram, s.hand[v].todo[0]).sub && u < c.tasks.mux && s.hand[v].m.publisher == v
    ensures FromPub(Apply(c, s, Examine(v, ok)).arrived[t], p)
         == if ok && u == t && v == p then FromPub(s.arrived[t], p) + [s.hand[v].m] else FromPub(s.arrived[t], p)
  {
    FromPubSnoc(s.arrived[t], s.hand[v].m, p);
  }

  lemma ExamineEffect(c: Config, s: Net, v: TaskId, ok: bool, u: TaskId, p: TaskId, t: TaskId)
    requires WF(c, s) && Enabled(c, s, Examine(v, ok)) && Copies(c, s, v)
    requires u == Deref(s.ram, s.hand[v].todo[0]).sub && u < c.tasks.mux && u != v && s.hand[v].m.publisher == v
    requires p < c.tasks.mux && t < c.tasks.mux && p != t && HandOk(c, s, p)
             && HandOk(c, Apply(c, s, Examine(v, ok)), p)
    ensures var s' := Apply(c, s, Examine(v, ok));
            if v == p && u == t then
              && Pending(s, p, t)
              && Offered(c, s', p, t) == Offered(c, s, p, t) + [s.hand[p].m]
              && FromPub(s'.arrived[t], p)
                 == if ok then FromPub(s.arrived[t], p) + [s.hand[p].m] else FromPub(s.arrived[t], p)
            else
              && Offered(c, s', p, t) == Offered(c, s, p, t)
              && FromPub(s'.arrived[t], p) == FromPub(s.arrived[t], p)
  {
    hide FromPub, Wants;
    ExamineArrives(c, s, v, ok, u, p, t);
    assert Apply(c, s, Examine(v, ok)).taken == s.taken;
    if v == p && u == t { OfferOne(c, s, p); }
  }

  lemma OrderStep(c: Config, s: Net, a: Action, p: TaskId, t: TaskId)
    requires Base(c, s) && Enabled(c, s, a)
    requires p < c.tasks.mux && t < c.tasks.mux && HandOk(c, s, p) && OrderAt(c, s, p, t)
    requires HandOk(c, Apply(c, s, a), p)
    ensures OrderAt(c, Apply(c, s, a), p, t)
  {
    if p != t {
      if a.Examine? && Copies(c, s, a.t) { CopyIsLegit(c, s, a.t); }
      if Settles(c, s, a, p, t) {
        var mine, got := Offered(c, s, p, t), FromPub(s.arrived[t], p);
        OfferSettled(c, s, a, p, t);
        SubsequenceKeep(got, mine, s.hand[p].m);
        SubsequenceExtend(got, mine, [s.hand[p].m]);
      } else {
        OfferUntouched(c, s, a, p, t);
      }
    }
  }

  lemma StartInvariants(c: Config)
    ensures Base(c, Start(c)) && Order(c, Start(c))
  {
    SubsequenceEmpty<Msg>([]);
  }

  lemma {:induction false} RunKeepsOrder(c: Config, s: Net, acts: seq<Action>)
    requires ForwardIndex(c.rows, c.fwd) && Base(c, s) && Order(c, s) && Runs(c, s, acts)
    ensures Base(c, Exec(c, s, acts)) && Order(c, Exec(c, s, acts))
    decreases acts
  {
    if acts == [] {
    } else {
      var s' := Apply(c, s, acts[0]);
      BaseStep(c, s, acts[0]);
      forall p: TaskId, t: TaskId | p < c.tasks.mux && t < c.tasks.mux && TaskOk(c, s', p)
        ensures OrderAt(c, s', p, t)
      {
        assert TaskOk(c, s, p);
        OrderStep(c, s, acts[0], p, t);
      }
      RunKeepsOrder(c, s', acts[1..]);
    }
  }

  // ---- What a run's actions put into its state ----

  /** The messages of p that p's mailbox accepted, in order. */
  function Published(acts: seq<Action>, p: TaskId): seq<Msg> {
    if acts == [] then []
    else (if acts[0].Publish? && acts[0].p == p && acts[0].ok then [acts[0].m] else []) + Published(acts[1..], p)
  }

  function Toggles(acts: seq<Action>): seq<Toggle> {
    if acts == [] then [] else (if acts[0].Flag? then [acts[0].c] else []) + Toggles(acts[1..])
  }

  lemma ArrivedStep(c: Config, s: Net, a: Action, p: TaskId)
    requires Base(c, s) && Enabled(c, s, a) && p < c.tasks.mux
    ensures FromPub(Apply(c, s, a).arrived[p], p) == FromPub(s.arrived[p], p) + Published([a], p)
  {
    hide FromPub;
    assert [a][1..] == [];
    match a
    case Publish(q, m, ok) => FromPubSnoc(s.arrived[p], m, p);
    case Examine(t, ok) =>
      if Copies(c, s, t) {
        CopyIsLegit(c, s, t);
        ExamineArrives(c, s, t, ok, Deref(s.ram, s.hand[t].todo[0]).sub, p, p);
      }
    case _ =>
  }

  lemma {:induction false} RunPublishes(c: Config, s: Net, acts: seq<Action>, p: TaskId)
    requires ForwardIndex(c.rows, c.fwd) && Base(c, s) && Runs(c, s, acts) && p < c.tasks.mux
    ensures FromPub(Exec(c, s, acts).arrived[p], p) == FromPub(s.arrived[p], p) + Published(acts, p)
    decreases acts
  {
    hide FromPub, Apply, Enabled, TaskOk, SameKeys;
    if acts == [] {
    } else {
      BaseStep(c, s, acts[0]);
      ArrivedStep(c, s, acts[0], p);
      RunPublishes(c, Apply(c, s, acts[0]), acts[1..], p);
      assert [acts[0]][1..] == [];
      assert Published(acts, p) == Published([acts[0]], p) + Published(acts[1..], p);
    }
  }

  /** In every run, p's own messages in p's mailbox history are exactly its accepted publications, in order. */
  lemma OwnMailIsPublished(c: Config, acts: seq<Action>, p: TaskId)
    requires ForwardIndex(c.rows, c.fwd) && Runs(c, Start(c), acts) && p < c.tasks.mux
    ensures FromPub(Exec(c, Start(c), acts).arrived[p], p) == Published(acts, p)
  {
    StartInvariants(c);
    RunPublishes(c, Start(c), acts, p);
  }

  lemma {:induction false} RunReplays(c: Config, s: Net, acts: seq<Action>, h: seq<Toggle>)
    requires WF(c, s) && Runs(c, s, acts) && s.ram == Replay(c.rows, h)
    ensures Exec(c, s, acts).ram == Replay(c.rows, h + Toggles(acts))
    decreases acts
  {
    if acts == [] {
      assert h + [] == h;
    } else {
      var h' := if acts[0].Flag? then h + [acts[0].c] else h;
      if acts[0].Flag? { ReplayStep(c.rows, h, acts[0].c); }
      RunReplays(c, Apply(c, s, acts[0]), acts[1..], h');
      assert h' + Toggles(acts[1..]) == h + Toggles(acts);
    }
  }

  /** In every run the flags in force are the toggles so far, replayed. */
  lemma FlagsFollowToggles(c: Config, acts: seq<Action>)
    requires Runs(c, Start(c), acts)
    ensures Exec(c, Start(c), acts).ram == Replay(c.rows, Toggles(acts))
  {
    assert Replay(c.rows, []) == c.rows;
    RunReplays(c, Start(c), acts, []);
    assert [] + Toggles(acts) == Toggles(acts);
  }

  /**
   * On the fields: whether a forward entry gets its copy is decided by the flag that the toggles so far
   * leave it, and an accepted copy is the message itself.
   */
  lemma CopiesFollowToggles(c: Config, before: seq<Action>, t: TaskId, ok: bool)
    requires ForwardIndex(c.rows, c.fwd) && Runs(c, Start(c), before) && t < c.tasks.mux
    requires var s := Exec(c, Start(c), before); s.hand[t].Busy? && s.hand[t].todo != []
    ensures var s := Exec(c, Start(c), before); var h := s.hand[t];
            && h.todo[0] < |c.rows|
            && Enabled(c, s, Examine(t, ok))
            && var e := Replay(c.rows, Toggles(before))[h.todo[0]];
               var copy := e.active && e.id == h.m.id && e.pub == t && h.m.publisher == t && e.sub != t
                           && e.sub !in h.sent && e.sub < c.tasks.mux && e.sub in c.tasks.live;
               var s' := Apply(c, s, Examine(t, ok));
               && s'.log[t] == (if copy then s.log[t] + [Forward(e.sub, h.m)] else s.log[t])
               && forall u :: 0 <= u < c.tasks.mux ==>
                    s'.arrived[u] == if copy && ok && u == e.sub then s.arrived[u] + [h.m] else s.arrived[u]
  {
    StartInvariants(c);
    RunKeepsOrder(c, Start(c), before);
    FlagsFollowToggles(c, before);
    var s := Exec(c, Start(c), before);
    assert TaskOk(c, s, t) && s.hand[t].todo[0] in s.hand[t].todo;
  }

  /** On the fields: whether a callback entry runs is decided by the flag that the toggles so far leave it. */
  lemma CallsFollowToggles(c: Config, before: seq<Action>, t: TaskId)
    requires ForwardIndex(c.rows, c.fwd) && Runs(c, Start(c), before)
    requires Enabled(c, Exec(c, Start(c), before), Invoke(t))
    ensures var s := Exec(c, Start(c), before); var h := s.hand[t];
            && h.calls[0] < |c.rows|
            && var e := Replay(c.rows, Toggles(before))[h.calls[0]];
               Apply(c, s, Invoke(t)).log[t]
               == if e.sub == t && e.pub == h.m.publisher && e.id == h.m.id && e.cb != None && e.active
                  then s.log[t] + [Call(e.cb.value, h.m)] else s.log[t]
  {
    StartInvariants(c);
    RunKeepsOrder(c, Start(c), before);
    FlagsFollowToggles(c, before);
    var s := Exec(c, Start(c), before);
    assert TaskOk(c, s, t) && s.hand[t].calls[0] in s.hand[t].calls;
  }

  /**
   * In every run, whatever is dropped, toggled or interleaved, the copies from p that t has
   * taken form a subsequence of p's own messages in the order p's mailbox accepted them.
   */
  lemma PublisherOrder(c: Config, acts: seq<Action>, p: TaskId, t: TaskId)
    requires ForwardIndex(c.rows, c.fwd) && Runs(c, Start(c), acts)
    requires p < c.tasks.mux && t < c.tasks.mux && p != t
    ensures var s := Exec(c, Start(c), acts); Subsequence(FromPub(s.taken[t], p), FromPub(s.arrived[p], p))
    ensures Subsequence(FromPub(Exec(c, Start(c), acts).taken[t], p), Published(acts, p))
  {
    OwnMailIsPublished(c, acts, p);
    StartInvariants(c);
    RunKeepsOrder(c, Start(c), acts);
    var s := Exec(c, Start(c), acts);
    assert TaskOk(c, s, p) && TaskOk(c, s, t) && OrderAt(c, s, p, t);
    FromPubAppend(s.taken[t], s.box[t], p);
    var got := FromPub(s.taken[t], p);
    assert got == FromPub(s.arrived[t], p)[..|got|];
    SubsequencePrefix(FromPub(s.arrived[t], p), Offered(c, s, p, t), |got|);
    FromPubAppend(s.taken[p], s.box[p], p);
    if s.hand[p].Busy? && s.hand[p].m.publisher == p {
      OfferOne(c, s, p);
    }
    var all, part := FromPub(s.arrived[p], p), Offered(c, s, p, t);
    assert part == all[..|part|];
    SubsequenceExtend(got, part, all[|part|..]);
    assert part + all[|part|..] == all;
  }
}
