/**
 * The network with its mailboxes: each task of `Network` has the queue, pool and notify event of
 * `Mailbox`, and a send succeeds or fails as these decide. A send runs uninterrupted here; waking,
 * receiving and releasing are steps of their own, and all tasks interleave.
 */
module TaskNetwork {
  import opened Types
  import opened Lists
  import opened RegistrySpec
  import N = Network
  import MB = Mailbox
  import FanOut
  import Quiescence

  datatype Config = Config(net: N.Config, ctrl: seq<MB.Ctrl>) {
    ghost predicate Valid() { ForwardIndex(net.rows, net.fwd) && |ctrl| == net.tasks.mux }
  }

  datatype State = State(
    ram: seq<Entry>,
    node: seq<MB.State>,       // each with one sender: sends do not overlap
    hand: seq<N.Hand>,
    arrived: seq<seq<Msg>>,    // the histories of `Network`
    taken: seq<seq<Msg>>,
    log: seq<seq<Event>>)

  datatype Action =
    | Publish(p: TaskId, m: Msg, got: Option<MB.Block>)
    | Flag(g: Toggle)
    | Wake(t: TaskId)
    | Receive(t: TaskId)
    | Examine(t: TaskId, got: Option<MB.Block>)
    | Invoke(t: TaskId)
    | Finish(t: TaskId)

  predicate WF(c: Config, s: State) {
    && |c.ctrl| == c.net.tasks.mux
    && |s.node| == |s.hand| == |s.arrived| == |s.taken| == |s.log| == c.net.tasks.mux
    && |s.ram| == |c.net.rows|
  }

  // ---- Sends ----

  /** The allocator's possible answers to a send of `m` to u; an unknown task gets no block. */
  predicate CanSend(c: Config, s: State, u: TaskId, m: Msg, got: Option<MB.Block>)
    requires WF(c, s) && u < c.net.tasks.mux
  {
    if c.net.tasks.Known(u) then MB.Allocates(c.ctrl[u], s.node[u].store, |m.payload|, true, got) else got == None
  }

  predicate Full(c: Config, s: State, u: TaskId)
    requires WF(c, s) && u < c.net.tasks.mux
  {
    |s.node[u].store.queue| >= c.ctrl[u].depth
  }

  predicate Accepts(c: Config, s: State, u: TaskId, got: Option<MB.Block>)
    requires WF(c, s) && u < c.net.tasks.mux
  {
    got.Some? && !Full(c, s, u)
  }

  function Send(c: Config, s: State, u: TaskId, m: Msg, got: Option<MB.Block>): (s': State)
    requires WF(c, s) && u < c.net.tasks.mux
    ensures WF(c, s')
  {
    var k := s.node[u];
    if Accepts(c, s, u, got) then
      s.(node := s.node[u := k.(store := MB.Sent(c.ctrl[u], k.store, m, got), arrived := k.arrived + 1)],
         arrived := s.arrived[u := s.arrived[u] + [m]])
    else s
  }

  // ---- Steps ----

  /** The task the next forward entry names. */
  function Next(c: Config, s: State, t: TaskId): TaskId
    requires WF(c, s) && t < c.net.tasks.mux && s.hand[t].Busy? && s.hand[t].todo != []
  {
    Deref(s.ram, s.hand[t].todo[0]).sub
  }

  /** Whether it gets a copy. */
  predicate Copies(c: Config, s: State, t: TaskId)
    requires WF(c, s) && t < c.net.tasks.mux && s.hand[t].Busy? && s.hand[t].todo != []
  {
    Wants(c.net.tasks, t, s.hand[t].m, Deref(s.ram, s.hand[t].todo[0])) && Next(c, s, t) !in s.hand[t].sent
  }

  predicate Enabled(c: Config, s: State, a: Action)
    requires WF(c, s)
  {
    match a
    case Publish(p, m, got) => p < c.net.tasks.mux && m.publisher == p && CanSend(c, s, p, m, got)
    case Flag(_) => true
    case Wake(t) => t < c.net.tasks.mux && MB.Enabled(c.ctrl[t], s.node[t], MB.Wake)
    case Receive(t) => t < c.net.tasks.mux && MB.Enabled(c.ctrl[t], s.node[t], MB.Recv)
    case Examine(t, got) =>
      && t < c.net.tasks.mux && s.hand[t].Busy? && s.hand[t].todo != []
      && (if Copies(c, s, t) then CanSend(c, s, Next(c, s, t), s.hand[t].m, got) else got == None)
    case Invoke(t) => t < c.net.tasks.mux && s.hand[t].Busy? && s.hand[t].todo == [] && s.hand[t].calls != []
    case Finish(t) =>
      && t < c.net.tasks.mux && s.hand[t].Busy? && s.hand[t].todo == [] && s.hand[t].calls == []
      && MB.Enabled(c.ctrl[t], s.node[t], MB.Release)
  }

  function Apply(c: Config, s: State, a: Action): (s': State)
    requires WF(c, s) && Enabled(c, s, a)
    ensures WF(c, s')
  {
    match a
    case Publish(p, m, got) => Send(c, s, p, m, got)
    case Flag(g) => s.(ram := SwitchAll(g, s.ram))
    case Wake(t) => s.(node := s.node[t := MB.Apply(c.ctrl[t], s.node[t], MB.Wake)])
    case Receive(t) =>
      var s1 := s.(node := s.node[t := MB.Apply(c.ctrl[t], s.node[t], MB.Recv)]);
      var queue := s.node[t].store.queue;
      if queue == [] then s1
      else s1.(taken := s.taken[t := s.taken[t] + [queue[0].msg]], hand := s.hand[t := N.Begin(c.net, t, queue[0].msg)])
    case Examine(t, got) =>
      var h := s.hand[t];
      if Copies(c, s, t) then
        var u := Next(c, s, t);
        Send(c, s.(hand := s.hand[t := h.(todo := h.todo[1..], sent := h.sent + {u})],
                   log := s.log[t := s.log[t] + [Forward(u, h.m)]]), u, h.m, got)
      else s.(hand := s.hand[t := h.(todo := h.todo[1..])])
    case Invoke(t) =>
      var h := s.hand[t];
      s.(hand := s.hand[t := h.(calls := h.calls[1..])],
         log := s.log[t := s.log[t] + CallOf(t, h.m, Deref(s.ram, h.calls[0]))])
    case Finish(t) =>
      s.(node := s.node[t := MB.Apply(c.ctrl[t], s.node[t], MB.Release)], hand := s.hand[t := N.Idle])
  }

  predicate Runs(c: Config, s: State, acts: seq<Action>)
    requires WF(c, s)
    decreases acts
  {
    acts == [] || (Enabled(c, s, acts[0]) && Runs(c, Apply(c, s, acts[0]), acts[1..]))
  }

  function Exec(c: Config, s: State, acts: seq<Action>): (s': State)
    requires WF(c, s) && Runs(c, s, acts)
    ensures WF(c, s')
    decreases acts
  {
    if acts == [] then s else Exec(c, Apply(c, s, acts[0]), acts[1..])
  }

  function StartNode(c: MB.Ctrl): MB.State { MB.Start(c, 1).(consumer := MB.Waiting) }

  /** Full pools, empty mailboxes, every consumer waiting. */
  function Start(c: Config): (s: State)
    requires |c.ctrl| == c.net.tasks.mux
    ensures WF(c, s)
  {
    var none := seq(c.net.tasks.mux, _ => []);
    var quiet := seq(c.net.tasks.mux, _ => []);
    State(c.net.rows, seq(c.net.tasks.mux, t requires 0 <= t < c.net.tasks.mux => StartNode(c.ctrl[t])),
          seq(c.net.tasks.mux, _ => N.Idle), none, none, quiet)
  }

  // ---- Each mailbox keeps its invariants ----

  predicate Coupled(h: N.Hand, k: MB.State) {
    && k.senders == [MB.Ready] && !k.exitBit
    && match k.consumer
       case Waiting => h.Idle?
       case Draining(exit) => h.Idle? && !exit
       case Handling(p, exit) => h.Busy? && h.m == p.msg && !exit
       case _ => false
  }

  ghost predicate NodeOk(c: MB.Ctrl, h: N.Hand, k: MB.State) {
    Coupled(h, k) && MB.OwnInv(c, k) && MB.WakeInv(c, k)
  }

  ghost predicate Inv(c: Config, s: State) {
    WF(c, s) && forall t :: 0 <= t < c.net.tasks.mux ==> NodeOk(c.ctrl[t], s.hand[t], s.node[t])
  }

  lemma StartNodeOk(c: MB.Ctrl)
    ensures NodeOk(c, N.Idle, StartNode(c))
  {
    MB.StartOwns(c, 1);
    assert MB.Enabled(c, MB.Start(c, 1), MB.EnterLoop);
    MB.OwnStep(c, MB.Start(c, 1), MB.EnterLoop);
  }

  lemma SendKeepsNode(c: MB.Ctrl, h: N.Hand, k: MB.State, m: Msg, got: Option<MB.Block>)
    requires NodeOk(c, h, k) && MB.Allocates(c, k.store, |m.payload|, true, got) && got.Some?
             && |k.store.queue| < c.depth
    ensures NodeOk(c, h, k.(store := MB.Sent(c, k.store, m, got), arrived := k.arrived + 1))
  {
    var acts := MB.SendActions(c, k.store, 0, m, true, got);
    MB.UninterruptedSend(c, k, 0, m, true, got);
    MB.RunKeepsOwners(c, k, acts);
    MB.RunKeepsWake(c, k, acts);
  }

  lemma StepKeepsNode(c: MB.Ctrl, h: N.Hand, k: MB.State, a: MB.Action)
    requires NodeOk(c, h, k) && MB.Enabled(c, k, a) && (a.Wake? || a.Recv? || a.Release?)
    ensures var k' := MB.Apply(c, k, a);
            && MB.OwnInv(c, k') && MB.WakeInv(c, k') && k'.senders == k.senders && !k'.exitBit
            && (a.Wake? ==> k'.consumer == MB.Draining(false) && h.Idle? && k'.store.queue == k.store.queue)
            && (a.Recv? ==> h.Idle?)
            && (a.Recv? && k.store.queue == [] ==> k'.consumer == MB.Waiting && k'.store == k.store)
            && (a.Recv? && k.store.queue != [] ==>
                  k'.consumer == MB.Handling(k.store.queue[0], false) && k'.store.queue == k.store.queue[1..])
            && (a.Release? ==> k'.consumer == MB.Draining(false) && k'.store.queue == k.store.queue)
  {
    hide MB.OwnInv;
    MB.OwnStep(c, k, a);
    MB.WakeStep(c, k, a);
  }

  lemma SendKeeps(c: Config, s: State, u: TaskId, m: Msg, got: Option<MB.Block>)
    requires Inv(c, s) && u < c.net.tasks.mux && CanSend(c, s, u, m, got)
    ensures Inv(c, Send(c, s, u, m, got))
  {
    hide NodeOk;
    if Accepts(c, s, u, got) {
      assert NodeOk(c.ctrl[u], s.hand[u], s.node[u]);
      SendKeepsNode(c.ctrl[u], s.hand[u], s.node[u], m, got);
    }
  }

  lemma NextInRange(c: Config, s: State, t: TaskId)
    requires WF(c, s) && t < c.net.tasks.mux && s.hand[t].Busy? && s.hand[t].todo != [] && Copies(c, s, t)
    ensures Next(c, s, t) < c.net.tasks.mux && c.net.tasks.Known(Next(c, s, t))
  {
  }

  lemma ExamineKeeps(c: Config, s: State, t: TaskId, got: Option<MB.Block>)
    requires Inv(c, s) && Enabled(c, s, Examine(t, got))
    ensures Inv(c, Apply(c, s, Examine(t, got)))
  {
    var h := s.hand[t];
    assert NodeOk(c.ctrl[t], h, s.node[t]);
    if Copies(c, s, t) {
      NextInRange(c, s, t);
      var u := Next(c, s, t);
      var h' := h.(todo := h.todo[1..], sent := h.sent + {u});
      var s1 := s.(hand := s.hand[t := h'], log := s.log[t := s.log[t] + [Forward(u, h.m)]]);
      BusyKeeps(c, s, t, h');
      assert Inv(c, s1);
      SendKeeps(c, s1, u, h.m, got);
    } else {
      BusyKeeps(c, s, t, h.(todo := h.todo[1..]));
    }
  }

  /** A busy hand's progress does not concern its mailbox. */
  lemma BusyKeeps(c: Config, s: State, t: TaskId, h: N.Hand)
    requires Inv(c, s) && t < c.net.tasks.mux && s.hand[t].Busy? && h.Busy? && h.m == s.hand[t].m
    ensures Inv(c, s.(hand := s.hand[t := h]))
  {
    hide MB.OwnInv, MB.WakeInv;
    assert NodeOk(c.ctrl[t], s.hand[t], s.node[t]);
  }

  lemma InvStep(c: Config, s: State, a: Action)
    requires Inv(c, s) && Enabled(c, s, a)
    ensures Inv(c, Apply(c, s, a))
  {
    hide MB.OwnInv, MB.WakeInv, MB.Apply, MB.Enabled;
    match a
    case Publish(p, m, got) => SendKeeps(c, s, p, m, got);
    case Flag(_) =>
    case Wake(t) => StepKeepsNode(c.ctrl[t], s.hand[t], s.node[t], MB.Wake);
    case Receive(t) => StepKeepsNode(c.ctrl[t], s.hand[t], s.node[t], MB.Recv);
    case Examine(t, got) => ExamineKeeps(c, s, t, got);
    case Invoke(t) => BusyKeeps(c, s, t, s.hand[t].(calls := s.hand[t].calls[1..]));
    case Finish(t) => StepKeepsNode(c.ctrl[t], s.hand[t], s.node[t], MB.Release);
  }

  // ---- Refinement of the network ----

  function Msgs(queue: seq<MB.Packet>): seq<Msg> { Map(queue, (p: MB.Packet) => p.msg) }

  function Boxes(node: seq<MB.State>): seq<seq<Msg>> { Map(node, (k: MB.State) => Msgs(k.store.queue)) }

  /** The state of `Network` that a state represents: mailboxes lose their bounds and blocks. */
  function Abs(s: State): N.Net { N.Net(s.ram, Boxes(s.node), s.hand, s.arrived, s.taken, s.log) }

  /** The step of `Network` that a step is, if it is one. */
  function Lifted(c: Config, s: State, a: Action): Option<N.Action>
    requires WF(c, s) && Enabled(c, s, a)
  {
    match a
    case Publish(p, m, got) => Some(N.Publish(p, m, Accepts(c, s, p, got)))
    case Flag(g) => Some(N.Flag(g))
    case Wake(_) => None
    case Receive(t) => if s.node[t].store.queue == [] then None else Some(N.Take(t))
    case Examine(t, got) => Some(N.Examine(t, Copies(c, s, t) && Accepts(c, s, Next(c, s, t), got)))
    case Invoke(t) => Some(N.Invoke(t))
    case Finish(t) => Some(N.Finish(t))
  }

  lemma BoxesAfterSend(c: Config, s: State, u: TaskId, m: Msg, got: Option<MB.Block>)
    requires WF(c, s) && u < c.net.tasks.mux
    ensures Abs(Send(c, s, u, m, got)) == if Accepts(c, s, u, got) then N.Arrive(Abs(s), u, m) else Abs(s)
  {
    if Accepts(c, s, u, got) {
      var queue := s.node[u].store.queue;
      assert Msgs(queue + [MB.Packet(got.value, m)]) == Msgs(queue) + [m];
      var s' := Send(c, s, u, m, got);
      assert s'.node[u].store.queue == queue + [MB.Packet(got.value, m)];
      assert Boxes(s'.node) == Boxes(s.node)[u := Boxes(s.node)[u] + [m]];
    }
  }

  lemma BoxesAfterStep(c: Config, s: State, t: TaskId, k: MB.State)
    requires WF(c, s) && t < c.net.tasks.mux
    ensures Boxes(s.node[t := k]) == Boxes(s.node)[t := Msgs(k.store.queue)]
  {
  }

  lemma ReceiveRefines(c: Config, s: State, t: TaskId)
    requires Inv(c, s) && Enabled(c, s, Receive(t))
    ensures var l := Lifted(c, s, Receive(t)); var s' := Apply(c, s, Receive(t));
            && (l.None? ==> Abs(s') == Abs(s))
            && (l.Some? ==> N.Enabled(c.net, Abs(s), l.value) && N.Apply(c.net, Abs(s), l.value) == Abs(s'))
  {
    assert NodeOk(c.ctrl[t], s.hand[t], s.node[t]);
    StepKeepsNode(c.ctrl[t], s.hand[t], s.node[t], MB.Recv);
    var k', queue := MB.Apply(c.ctrl[t], s.node[t], MB.Recv), s.node[t].store.queue;
    BoxesAfterStep(c, s, t, k');
    if queue == [] {
      assert Boxes(s.node)[t := Msgs(queue)] == Boxes(s.node);
    } else {
      assert Msgs(queue[1..]) == Msgs(queue)[1..] && Msgs(queue)[0] == queue[0].msg;
    }
  }

  lemma ExamineRefines(c: Config, s: State, t: TaskId, got: Option<MB.Block>)
    requires Inv(c, s) && Enabled(c, s, Examine(t, got))
    ensures var l := Lifted(c, s, Examine(t, got)).value;
            N.Enabled(c.net, Abs(s), l) && N.Apply(c.net, Abs(s), l) == Abs(Apply(c, s, Examine(t, got)))
  {
    var h := s.hand[t];
    assert N.Copies(c.net, Abs(s), t) == Copies(c, s, t);
    if Copies(c, s, t) {
      var u := Next(c, s, t);
      var s1 := s.(hand := s.hand[t := h.(todo := h.todo[1..], sent := h.sent + {u})],
                   log := s.log[t := s.log[t] + [Forward(u, h.m)]]);
      BoxesAfterSend(c, s1, u, h.m, got);
    }
  }

  lemma StepRefines(c: Config, s: State, a: Action)
    requires Inv(c, s) && Enabled(c, s, a)
    ensures var l := Lifted(c, s, a); var s' := Apply(c, s, a);
            && (l.None? ==> Abs(s') == Abs(s))
            && (l.Some? ==> N.Enabled(c.net, Abs(s), l.value) && N.Apply(c.net, Abs(s), l.value) == Abs(s'))
  {
    match a
    case Publish(p, m, got) => BoxesAfterSend(c, s, p, m, got);
    case Flag(_) =>
    case Wake(t) => QuietRefines(c, s, t, MB.Wake);
    case Receive(t) => ReceiveRefines(c, s, t);
    case Examine(t, got) => ExamineRefines(c, s, t, got);
    case Invoke(_) =>
    case Finish(t) => QuietRefines(c, s, t, MB.Release);
  }

  /** Waking and releasing leave the mailboxes' contents alone. */
  lemma QuietRefines(c: Config, s: State, t: TaskId, a: MB.Action)
    requires Inv(c, s) && t < c.net.tasks.mux && MB.Enabled(c.ctrl[t], s.node[t], a) && (a.Wake? || a.Release?)
    ensures Boxes(s.node[t := MB.Apply(c.ctrl[t], s.node[t], a)]) == Boxes(s.node)
  {
    assert NodeOk(c.ctrl[t], s.hand[t], s.node[t]);
    StepKeepsNode(c.ctrl[t], s.hand[t], s.node[t], a);
    BoxesAfterStep(c, s, t, MB.Apply(c.ctrl[t], s.node[t], a));
    assert Boxes(s.node)[t := Msgs(s.node[t].store.queue)] == Boxes(s.node);
  }

  /** The run of `Network` that a run is. */
  function Trace(c: Config, s: State, acts: seq<Action>): seq<N.Action>
    requires WF(c, s) && Runs(c, s, acts)
    decreases acts
  {
    if acts == [] then []
    else
      var l := Lifted(c, s, acts[0]);
      (if l.Some? then [l.value] else []) + Trace(c, Apply(c, s, acts[0]), acts[1..])
  }

  lemma {:induction false} RunRefines(c: Config, s: State, acts: seq<Action>)
    requires Inv(c, s) && Runs(c, s, acts)
    ensures Inv(c, Exec(c, s, acts))
    ensures N.Runs(c.net, Abs(s), Trace(c, s, acts)) && N.Exec(c.net, Abs(s), Trace(c, s, acts))
            == Abs(Exec(c, s, acts))
    decreases acts
  {
    hide NodeOk, Enabled, Apply, Lifted, Abs, N.Enabled, N.Apply;
    if acts == [] {
    } else {
      var s', l := Apply(c, s, acts[0]), Lifted(c, s, acts[0]);
      InvStep(c, s, acts[0]);
      StepRefines(c, s, acts[0]);
      RunRefines(c, s', acts[1..]);
      var rest := Trace(c, s', acts[1..]);
      if l.Some? {
        assert ([l.value] + rest)[1..] == rest;
      } else {
        assert [] + rest == rest;
      }
    }
  }

  lemma StartInv(c: Config)
    requires c.Valid()
    ensures Inv(c, Start(c)) && Abs(Start(c)) == N.Start(c.net)
  {
    forall t | 0 <= t < c.net.tasks.mux ensures NodeOk(c.ctrl[t], Start(c).hand[t], Start(c).node[t]) {
      StartNodeOk(c.ctrl[t]);
    }
    assert Msgs([]) == [];
    assert Boxes(Start(c).node) == N.Start(c.net).box;
  }

  /**
   * Every run with bounded mailboxes, finite pools and explicit wake-ups is a run of `Network`, with the
   * outcome of each send decided by the mailbox; all that is proved of every run of `Network` holds of it.
   */
  lemma Refines(c: Config, acts: seq<Action>)
    requires c.Valid() && Runs(c, Start(c), acts)
    ensures N.Runs(c.net, N.Start(c.net), Trace(c, Start(c), acts))
    ensures N.Exec(c.net, N.Start(c.net), Trace(c, Start(c), acts)) == Abs(Exec(c, Start(c), acts))
  {
    StartInv(c);
    RunRefines(c, Start(c), acts);
  }

  /** Per-publisher order, with what is dropped decided by the mailboxes. */
  lemma OrderWithMailboxes(c: Config, acts: seq<Action>, p: TaskId, t: TaskId)
    requires c.Valid() && Runs(c, Start(c), acts) && p < c.net.tasks.mux && t < c.net.tasks.mux && p != t
    ensures var s := Exec(c, Start(c), acts); Subsequence(N.FromPub(s.taken[t], p), N.FromPub(s.arrived[p], p))
  {
    Refines(c, acts);
    N.PublisherOrder(c.net, Trace(c, Start(c), acts), p, t);
  }

  // ---- Pools of the size the tasks declare ----

  /** msgq_depth + 2 blocks, as the tasks size their slabs. */
  predicate Sized(c: MB.Ctrl) { c.hasQueue && c.hasSlab && c.slabNum == c.depth + 2 }

  predicate AllSized(c: Config) { forall u :: 0 <= u < |c.ctrl| ==> Sized(c.ctrl[u]) }

  /** The message fits a slab block of every task. */
  predicate Fits(c: Config, m: Msg) { forall u :: 0 <= u < |c.ctrl| ==> !MB.NeedsHeap(c.ctrl[u], |m.payload|) }

  lemma PoolNeverEmpty(c: MB.Ctrl, h: N.Hand, k: MB.State)
    requires NodeOk(c, h, k) && Sized(c)
    ensures k.store.free != {}
  {
    MB.SlabsInQueue(k.store.queue);
    MB.SlabsInSenders(k.senders);
    assert MB.Holders([MB.Ready]) == 0 by { assert [MB.Ready][1..] == []; }
  }

  /** With such a pool a message that fits a block is refused only by a full mailbox. */
  lemma AcceptedUnlessFull(c: Config, s: State, u: TaskId, m: Msg, got: Option<MB.Block>)
    requires Inv(c, s) && u < c.net.tasks.mux && c.net.tasks.Known(u) && CanSend(c, s, u, m, got)
    requires Sized(c.ctrl[u]) && 12 + |m.payload| <= c.ctrl[u].blockSize
    ensures Accepts(c, s, u, got) <==> |s.node[u].store.queue| < c.ctrl[u].depth
  {
    assert NodeOk(c.ctrl[u], s.hand[u], s.node[u]);
    PoolNeverEmpty(c.ctrl[u], s.hand[u], s.node[u]);
  }

  /** Step `a` is p's attempt at a copy for t, and t's mailbox is full. */
  predicate Overflow(c: Config, s: State, a: Action, p: TaskId, t: TaskId)
    requires WF(c, s) && Enabled(c, s, a)
  {
    a.Examine? && a.t == p && Copies(c, s, p) && Next(c, s, p) == t && t < c.net.tasks.mux && Full(c, s, t)
  }

  /** How often a copy from p to t meets a full mailbox. */
  function Overflows(c: Config, s: State, acts: seq<Action>, p: TaskId, t: TaskId): nat
    requires WF(c, s) && Runs(c, s, acts)
    decreases acts
  {
    if acts == [] then 0
    else (if Overflow(c, s, acts[0], p, t) then 1 else 0) + Overflows(c, Apply(c, s, acts[0]), acts[1..], p, t)
  }

  predicate AllFit(c: Config, s: State)
    requires WF(c, s)
  {
    forall t, m :: 0 <= t < c.net.tasks.mux && m in s.arrived[t] ==> Fits(c, m)
  }

  predicate PublishesFit(c: Config, a: Action) { a.Publish? ==> Fits(c, a.m) }

  ghost predicate SizedInv(c: Config, s: State) {
    Inv(c, s) && N.Base(c.net, Abs(s)) && AllFit(c, s)
  }

  /** The message in hand once arrived. */
  lemma HandFits(c: Config, s: State, t: TaskId)
    requires SizedInv(c, s) && t < c.net.tasks.mux && s.hand[t].Busy?
    ensures Fits(c, s.hand[t].m)
  {
    var net := Abs(s);
    assert N.TaskOk(c.net, net, t);
    assert s.taken[t][|s.taken[t]| - 1] in net.arrived[t];
  }

  lemma FitsStep(c: Config, s: State, a: Action)
    requires SizedInv(c, s) && Enabled(c, s, a) && PublishesFit(c, a)
    ensures AllFit(c, Apply(c, s, a))
  {
    hide N.Base, NodeOk, MB.Apply, MB.Sent, Fits;
    if a.Examine? { HandFits(c, s, a.t); }
  }

  lemma SizedStep(c: Config, s: State, a: Action)
    requires c.Valid() && SizedInv(c, s) && Enabled(c, s, a) && PublishesFit(c, a)
    ensures SizedInv(c, Apply(c, s, a))
  {
    hide N.Base, NodeOk, Apply, Enabled, Lifted, Abs;
    FitsStep(c, s, a);
    InvStep(c, s, a);
    StepRefines(c, s, a);
    var l := Lifted(c, s, a);
    if l.Some? { N.BaseStep(c.net, Abs(s), l.value); }
  }

  /** A copy is refused exactly when it meets a full mailbox. */
  lemma OverflowIsRefusal(c: Config, s: State, a: Action, p: TaskId, t: TaskId)
    requires SizedInv(c, s) && AllSized(c) && Enabled(c, s, a) && Lifted(c, s, a).Some?
    requires N.Enabled(c.net, Abs(s), Lifted(c, s, a).value)
    ensures Overflow(c, s, a, p, t) <==> FanOut.RefusedFor(c.net, Abs(s), Lifted(c, s, a).value, p, t)
  {
    if a.Examine? && a.t == p && Copies(c, s, p) {
      HandFits(c, s, p);
      NextInRange(c, s, p);
      AcceptedUnlessFull(c, s, Next(c, s, p), s.hand[p].m, a.got);
    }
  }

  lemma {:induction false} OverflowsAreRefusals(c: Config, s: State, acts: seq<Action>, p: TaskId, t: TaskId)
    requires c.Valid() && SizedInv(c, s) && AllSized(c) && Runs(c, s, acts)
             && (forall a :: a in acts ==> PublishesFit(c, a))
    requires N.Runs(c.net, Abs(s), Trace(c, s, acts))
    ensures Overflows(c, s, acts, p, t) == FanOut.Refusals(c.net, Abs(s), Trace(c, s, acts), p, t)
    decreases acts
  {
    hide NodeOk, Enabled, Apply, Lifted, Abs, N.Base, N.Enabled, N.Apply, Overflow, FanOut.RefusedFor, PublishesFit,
        AllFit, AllSized;
    if acts == [] {
    } else {
      var a, rest := acts[0], acts[1..];
      var s', l := Apply(c, s, a), Lifted(c, s, a);
      SizedStep(c, s, a);
      StepRefines(c, s, a);
      RunRefines(c, s', rest);
      OverflowsAreRefusals(c, s', rest, p, t);
      var trace := Trace(c, s', rest);
      if l.Some? {
        OverflowIsRefusal(c, s, a, p, t);
        assert ([l.value] + trace)[1..] == trace;
      } else {
        NoCopyUnlifted(c, s, a, p, t);
        assert [] + trace == trace;
      }
    }
  }

  lemma NoCopyUnlifted(c: Config, s: State, a: Action, p: TaskId, t: TaskId)
    requires WF(c, s) && Enabled(c, s, a) && Lifted(c, s, a).None?
    ensures !Overflow(c, s, a, p, t)
  {
  }

  predicate Quiet(s: State) {
    (forall t :: 0 <= t < |s.node| ==> s.node[t].store.queue == [])
        && (forall t :: 0 <= t < |s.hand| ==> s.hand[t].Idle?)
  }

  lemma {:induction false} TraceKeepsFlags(c: Config, s: State, acts: seq<Action>)
    requires WF(c, s) && Runs(c, s, acts) && forall a :: a in acts ==> !a.Flag?
    ensures FanOut.FlagsFixed(Trace(c, s, acts))
    decreases acts
  {
    if acts == [] {
    } else {
      TraceKeepsFlags(c, Apply(c, s, acts[0]), acts[1..]);
    }
  }

  /**
   * Exactly-once delivery as the mailboxes decide it: with slabs of msgq_depth + 2 blocks, messages that
   * fit a block and fixed flags, what t has taken from p and the copies that met a full mailbox add up to
   * what t is owed; and t has taken exactly what it is owed, and run its callbacks for that, exactly when
   * no copy from p met t's mailbox full.
   */
  lemma DeliveredUnlessFull(c: Config, acts: seq<Action>, p: TaskId, t: TaskId)
    requires c.Valid() && AllSized(c) && Runs(c, Start(c), acts) && Quiet(Exec(c, Start(c), acts))
    requires forall a :: a in acts ==> !a.Flag? && PublishesFit(c, a)
    requires p < c.net.tasks.mux && t < c.net.tasks.mux && p != t
    ensures var s := Exec(c, Start(c), acts); var lost := Overflows(c, Start(c), acts, p, t);
            var got, owed := N.FromPub(s.taken[t], p), FanOut.Select(c.net, N.FromPub(s.arrived[p], p), p, t);
            && |got| + lost == |owed|
            && (got == owed <==> lost == 0)
            && (lost == 0 ==> FanOut.CallsIn(s.log[t], p) == FanOut.CallsOwed(c.net, t, owed))
    ensures Overflows(c, Start(c), acts, p, t) == 0 ==>
              forall m: Msg, cb: Callback :: m.publisher == p ==>
                multiset(Exec(c, Start(c), acts).log[t])[Call(cb, m)]
                == if t in c.net.tasks.live
                   then multiset(N.Published(Trace(c, Start(c), acts), p))[m]
                        * Count(c.net.rows, (e: Entry) =>
                            e.sub == t && e.pub == p && e.id == m.id && e.cb == Some(cb) && e.active)
                   else 0
  {
    var trace := Trace(c, Start(c), acts);
    StartInv(c);
    N.StartInvariants(c.net);
    Refines(c, acts);
    TraceKeepsFlags(c, Start(c), acts);
    OverflowsAreRefusals(c, Start(c), acts, p, t);
    assert N.Quiescent(Abs(Exec(c, Start(c), acts)));
    FanOut.ExactlyOnce(c.net, trace, p, t);
    if Overflows(c, Start(c), acts, p, t) == 0 {
      FanOut.CallbacksExactlyOnce(c.net, trace, p, t);
      forall m: Msg, cb: Callback | m.publisher == p {
        FanOut.CallbacksCounted(c.net, trace, p, t, m, cb);
      }
    }
  }

  // ---- Progress ----

  lemma SomeAnswer(c: Config, s: State, u: TaskId, m: Msg) returns (got: Option<MB.Block>)
    requires WF(c, s) && u < c.net.tasks.mux
    ensures CanSend(c, s, u, m, got)
  {
    got := None;
    var k, st := c.ctrl[u], s.node[u].store;
    if c.net.tasks.Known(u) && k.hasQueue && !MB.NeedsHeap(k, |m.payload|) && k.hasSlab && st.free != {} {
      var i :| i in st.free;
      got := Some(MB.Slab(i));
    }
  }

  /** Undelivered mail of an idle task: the task can wake, or receive. */
  lemma MailCanMove(c: MB.Ctrl, h: N.Hand, k: MB.State)
    requires NodeOk(c, h, k) && h.Idle? && k.store.queue != []
    ensures if k.consumer.Waiting? then MB.Enabled(c, k, MB.Wake) else MB.Enabled(c, k, MB.Recv)
  {
    hide MB.OwnInv;
    assert MB.Awake(k);
  }

  lemma BusyCanMove(c: Config, s: State, t: TaskId) returns (a: Action)
    requires WF(c, s) && t < c.net.tasks.mux && s.hand[t].Busy? && Coupled(s.hand[t], s.node[t])
    ensures !a.Publish? && !a.Flag? && Enabled(c, s, a) && Lifted(c, s, a).Some?
  {
    if s.hand[t].todo != [] {
      var got := None;
      if Copies(c, s, t) { got := SomeAnswer(c, s, Next(c, s, t), s.hand[t].m); }
      a := Examine(t, got);
    } else if s.hand[t].calls != [] {
      a := Invoke(t);
    } else {
      a := Finish(t);
    }
  }

  /** No run gets stuck with mail undelivered: some consumer can wake, receive or get on with its dispatch. */
  lemma NeverStuck(c: Config, acts: seq<Action>) returns (a: Action)
    requires c.Valid() && Runs(c, Start(c), acts) && !Quiet(Exec(c, Start(c), acts))
    ensures !a.Publish? && !a.Flag? && Enabled(c, Exec(c, Start(c), acts), a)
  {
    StartInv(c);
    RunRefines(c, Start(c), acts);
    a := SomeStep(c, Exec(c, Start(c), acts));
  }

  lemma SomeStep(c: Config, s: State) returns (a: Action)
    requires Inv(c, s) && !Quiet(s)
    ensures !a.Publish? && !a.Flag? && Enabled(c, s, a)
    ensures Lifted(c, s, a).None? ==> a.Wake? && s.node[a.t].consumer.Waiting?
  {
    hide MB.OwnInv, MB.WakeInv, MB.Enabled;
    if t :| 0 <= t < |s.hand| && s.hand[t].Busy? {
      assert NodeOk(c.ctrl[t], s.hand[t], s.node[t]);
      a := BusyCanMove(c, s, t);
    } else {
      var t :| 0 <= t < |s.node| && s.node[t].store.queue != [];
      assert NodeOk(c.ctrl[t], s.hand[t], s.node[t]);
      MailCanMove(c.ctrl[t], s.hand[t], s.node[t]);
      a := if s.node[t].consumer.Waiting? then Wake(t) else Receive(t);
    }
  }

  function Sleepers(node: seq<MB.State>): seq<nat> {
    Map(node, (k: MB.State) => if k.consumer.Waiting? then 1 else 0)
  }

  lemma WakeCounts(c: Config, s: State, t: TaskId)
    requires WF(c, s) && Enabled(c, s, Wake(t)) && s.node[t].consumer.Waiting?
    ensures Sum(Sleepers(Apply(c, s, Wake(t)).node)) < Sum(Sleepers(s.node))
  {
    var node' := Apply(c, s, Wake(t)).node;
    assert Sleepers(node') == Sleepers(s.node)[t := 0];
    SumUpdate(Sleepers(s.node), t, 0);
  }

  lemma {:induction false} DrainsFrom(c: Config, s: State) returns (acts: seq<Action>)
    requires c.Valid() && Inv(c, s) && N.Base(c.net, Abs(s))
    ensures Runs(c, s, acts) && Quiet(Exec(c, s, acts)) && forall a :: a in acts ==> !a.Publish? && !a.Flag?
    decreases Quiescence.Measure(c.net, Abs(s)), Sum(Sleepers(s.node))
  {
    hide NodeOk, Enabled, Apply, Abs, N.Base, N.Enabled, N.Apply, Quiet, Sleepers, Quiescence.Measure;
    if Quiet(s) {
      acts := [];
    } else {
      var a := SomeStep(c, s);
      var s' := Apply(c, s, a);
      InvStep(c, s, a);
      StepRefines(c, s, a);
      var l := Lifted(c, s, a);
      if l.Some? {
        ByConsumer(c, s, a);
        N.BaseStep(c.net, Abs(s), l.value);
        Quiescence.StepDecreases(c.net, Abs(s), l.value);
      } else {
        WakeCounts(c, s, a.t);
      }
      var rest := DrainsFrom(c, s');
      acts := [a] + rest;
      assert acts[1..] == rest;
    }
  }

  lemma ByConsumer(c: Config, s: State, a: Action)
    requires WF(c, s) && Enabled(c, s, a) && !a.Publish? && !a.Flag? && Lifted(c, s, a).Some?
    ensures Quiescence.Consumes(Lifted(c, s, a).value)
  {
  }

  /** From every reachable state the consumers alone can empty all mailboxes and go back to their loops. */
  lemma EveryStateDrains(c: Config, before: seq<Action>) returns (acts: seq<Action>)
    requires c.Valid() && Runs(c, Start(c), before)
    ensures Runs(c, Exec(c, Start(c), before), acts) && Quiet(Exec(c, Exec(c, Start(c), before), acts))
    ensures forall a :: a in acts ==> !a.Publish? && !a.Flag?
  {
    StartInv(c);
    RunRefines(c, Start(c), before);
    N.StartInvariants(c.net);
    N.RunKeepsOrder(c.net, N.Start(c.net), Trace(c, Start(c), before));
    acts := DrainsFrom(c, Exec(c, Start(c), before));
  }
}
