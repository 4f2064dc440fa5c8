/**
 * The manager's start handshake and shutdown barrier, with the tasks it coordinates.
 * Registrations are fixed; a bit `1U << id` is modelled by its position, so at most 32 tasks fit.
 */
module Lifecycle {
  import opened Types
  import opened Lists

  /** `n` is CONFIG_THREAD_ID_MUX_NUMBER; `gated` is CONFIG_THREAD_SYSTEM_READY. */
  datatype Config = Config(n: nat, manager: nat, live: set<nat>, gated: bool) {
    predicate Valid() { n <= 32 && manager < n && manager in live && forall t :: t in live ==> t < n }

    /** The tasks the manager starts and stops. */
    predicate App(t: nat) { t < n && t in live && t != manager }
  }

  datatype Manager =
    | Starting(id: nat)        // _thread_startup_sync_all, about to look at task `id`
    | Awaiting(id: nat)        // start_sem released, waiting for the task's startup bit
    | Serving                  // event loop
    | Asking(id: nat)          // _thread_request_exit_notify, about to look at task `id`
    | Joining(mask: set<nat>)  // _thread_tasks_exit_wait

  datatype Task =
    | Blocked                  // in or before thread_mgr_sys_start_sync_wait
    | Initing                  // between start_sync_wait and start_sync_end
    | Gate                     // after start_sync_end, before system-ready
    | Idle                     // waiting on its notify event
    | Working(exit: bool)      // draining its mailbox: callbacks run here
    | Leaving                  // _thread_exit, before its signal
    | Parked                   // signalled; delays forever

  datatype State = State(
    mgr: Manager,
    task: seq<Task>,
    sem: seq<nat>,             // start_sem counts
    startBits: set<nat>,       // s_startup_done
    exitBits: set<nat>,        // s_exit_done
    ready: bool,               // the sticky system-ready latch
    msgBits: set<nat>,         // tasks whose MSG bit is set
    askBits: set<nat>,         // tasks whose EXIT bit is set
    passed: seq<nat>,          // history: tasks that passed start_sync_wait, in order
    missed: set<nat>,          // history: tasks whose startup wait timed out
    ran: seq<nat>,             // history: tasks whose message callbacks ran
    joined: bool)              // history: an exit wait returned RT_EOK for a non-zero mask

  datatype Action =
    | MgrLook | MgrAck | MgrTimeout
    | MgrShutdown | MgrAsk | MgrJoinOk | MgrJoinTimeout
    | SemTake(t: nat) | InitEnd(t: nat) | PassGate(t: nat)
    | Post(t: nat) | Wake(t: nat) | Callback(t: nat) | Drained(t: nat) | Signal(t: nat)

  predicate WF(c: Config, s: State) { |s.task| == c.n && |s.sem| == c.n }

  /** _thread_exit_mask, as a set of bit positions. */
  function ExitMask(c: Config): set<nat> { c.live - {c.manager} }

  predicate Enabled(c: Config, s: State, a: Action)
    requires WF(c, s)
  {
    match a
    case MgrLook => s.mgr.Starting?
    case MgrAck => s.mgr.Awaiting? && s.mgr.id in s.startBits
    case MgrTimeout => s.mgr.Awaiting? && s.mgr.id !in s.startBits
    case MgrShutdown => s.mgr.Serving?
    case MgrAsk => s.mgr.Asking?
    case MgrJoinOk => s.mgr.Joining? && s.mgr.mask <= s.exitBits
    case MgrJoinTimeout => s.mgr.Joining? && !(s.mgr.mask <= s.exitBits)
    case SemTake(t) => c.App(t) && s.task[t].Blocked? && s.sem[t] > 0
    case InitEnd(t) => c.App(t) && s.task[t].Initing?
    case PassGate(t) => c.App(t) && s.task[t].Gate? && (c.gated ==> s.ready)
    case Post(t) => c.App(t)
    case Wake(t) => c.App(t) && s.task[t].Idle? && (t in s.msgBits || t in s.askBits)
    case Callback(t) => c.App(t) && s.task[t].Working?
    case Drained(t) => c.App(t) && s.task[t].Working?
    case Signal(t) => c.App(t) && s.task[t].Leaving?
  }

  function Apply(c: Config, s: State, a: Action): (s': State)
    requires WF(c, s) && Enabled(c, s, a)
    ensures WF(c, s')
  {
    match a
    case MgrLook =>
      var id := s.mgr.id;
      if id >= c.n then s.(mgr := Serving, ready := s.ready || c.gated)
      else if !c.App(id) then s.(mgr := Starting(id + 1))
      else s.(mgr := Awaiting(id), sem := s.sem[id := s.sem[id] + 1])
    case MgrAck => s.(mgr := Starting(s.mgr.id + 1), startBits := s.startBits - {s.mgr.id})
    case MgrTimeout => s.(mgr := Starting(s.mgr.id + 1), missed := s.missed + {s.mgr.id})
    case MgrShutdown => s.(mgr := Asking(0))
    case MgrAsk =>
      var id := s.mgr.id;
      if id >= c.n then
        if ExitMask(c) == {} then s.(mgr := Serving) else s.(mgr := Joining(ExitMask(c)))
      else if !c.App(id) then s.(mgr := Asking(id + 1))
      else s.(mgr := Asking(id + 1), askBits := s.askBits + {id})
    case MgrJoinOk => s.(mgr := Serving, exitBits := s.exitBits - s.mgr.mask, joined := true)
    case MgrJoinTimeout => s.(mgr := Serving)
    case SemTake(t) => s.(task := s.task[t := Initing], sem := s.sem[t := s.sem[t] - 1], passed := s.passed + [t])
    case InitEnd(t) => s.(task := s.task[t := Gate], startBits := s.startBits + {t})
    case PassGate(t) => s.(task := s.task[t := Idle])
    case Post(t) => s.(msgBits := s.msgBits + {t})
    case Wake(t) =>
      s.(task := s.task[t := if t in s.msgBits then Working(t in s.askBits) else Leaving],
         msgBits := s.msgBits - {t}, askBits := s.askBits - {t})
    case Callback(t) => s.(ran := s.ran + [t])
    case Drained(t) => s.(task := s.task[t := if s.task[t].exit then Leaving else Idle])
    case Signal(t) => s.(task := s.task[t := Parked], exitBits := s.exitBits + {t})
  }

  predicate Runs(c: Config, s: State, acts: seq<Action>)
    requires WF(c, s)
    decreases acts
  {
    acts == [] || (Enabled(c, s, acts[0]) && Runs(c, Apply(c, s, acts[0]), acts[1..]))
  }

  function Exec(c: Config, s: State, acts: seq<Action>): (s': State)
    requires WF(c, s) && Runs(c, s, acts)
    ensures WF(c, s')
    decreases acts
  {
    if acts == [] then s else Exec(c, Apply(c, s, acts[0]), acts[1..])
  }

  /** The manager has spawned the tasks and is about to start the handshake. */
  function Start(c: Config): (s: State)
    ensures WF(c, s)
  {
    State(Starting(0), seq(c.n, _ => Blocked), seq(c.n, _ => 0), {}, {}, false, {}, {}, [], {}, [], false)
  }

  // ---- Start handshake ----

  /** The handshake has dealt with every task below this number; `n` once it is over. */
  function Frontier(c: Config, m: Manager): nat {
    if m.Starting? || m.Awaiting? then m.id else c.n
  }

  predicate SignalledStart(k: Task) { !k.Blocked? && !k.Initing? }

  /** What is true of task t: by position relative to the handshake, and by what it has signalled. */
  predicate TaskInv(c: Config, s: State, t: nat)
    requires WF(c, s) && t < c.n
  {
    && (t in s.startBits ==> SignalledStart(s.task[t]))
    && (!c.App(t) ==> s.task[t].Blocked?)
    // beyond the frontier nothing was released
    && (t > Frontier(c, s.mgr) || (t == Frontier(c, s.mgr) && !s.mgr.Awaiting?) ==> s.sem[t] == 0 && s.task[t].Blocked?)
    // the manager leaves a task behind only once it has signalled or timed out
    && (c.App(t) && t < Frontier(c, s.mgr) ==> SignalledStart(s.task[t]) || t in s.missed)
    && (t in s.missed ==> t < Frontier(c, s.mgr))
    // system-ready gate, exit signal
    && (c.gated && !s.ready ==> s.task[t].Blocked? || s.task[t].Initing? || s.task[t].Gate?)
    && (t in s.exitBits ==> s.task[t].Parked?)
    && (s.joined && c.App(t) ==> s.task[t].Parked?)
    // one semaphore release per task
    && (s.sem[t] + (if s.task[t].Blocked? then 0 else 1) <= 1)
    && (t in s.passed <==> !s.task[t].Blocked?)
  }

  predicate MgrInv(c: Config, s: State) {
    && (s.mgr.Starting? || s.mgr.Awaiting? ==> s.mgr.id <= c.n && !s.ready && !s.joined)
    && (s.mgr.Awaiting? ==> c.App(s.mgr.id))
    && (s.mgr.Joining? ==> s.mgr.mask == ExitMask(c))
    && (c.gated && s.ran != [] ==> s.ready)
  }

  /** While nothing has timed out, tasks pass the start semaphore in strictly increasing order of id. */
  predicate PassOrder(c: Config, s: State)
    requires WF(c, s)
  {
    s.missed == {} ==>
      && (forall i, j :: 0 <= i < j < |s.passed| ==> s.passed[i] < s.passed[j])
      && (forall i :: 0 <= i < |s.passed| ==> s.passed[i] <= Frontier(c, s.mgr))
  }

  ghost predicate Inv(c: Config, s: State) {
    && c.Valid() && WF(c, s) && MgrInv(c, s) && PassOrder(c, s)
    && (forall t :: 0 <= t < c.n ==> TaskInv(c, s, t))
  }

  predicate ByManager(a: Action) {
    a.MgrLook? || a.MgrAck? || a.MgrTimeout? || a.MgrShutdown? || a.MgrAsk? || a.MgrJoinOk? || a.MgrJoinTimeout?
  }

  lemma ManagerKeepsTask(c: Config, s: State, a: Action, t: nat)
    requires c.Valid() && WF(c, s) && MgrInv(c, s) && Enabled(c, s, a) && t < c.n && ByManager(a)
    requires TaskInv(c, s, t)
    ensures TaskInv(c, Apply(c, s, a), t)
  {
  }

  lemma TaskKeepsTask(c: Config, s: State, a: Action, t: nat)
    requires c.Valid() && WF(c, s) && MgrInv(c, s) && Enabled(c, s, a) && t < c.n && !ByManager(a)
    requires TaskInv(c, s, t)
    ensures TaskInv(c, Apply(c, s, a), t)
  {
  }

  lemma MgrStep(c: Config, s: State, a: Action)
    requires Inv(c, s) && Enabled(c, s, a)
    ensures MgrInv(c, Apply(c, s, a))
  {
    if a.Callback? { assert TaskInv(c, s, a.t); }
  }

  lemma PassStep(c: Config, s: State, a: Action)
    requires Inv(c, s) && Enabled(c, s, a)
    ensures PassOrder(c, Apply(c, s, a))
  {
    if a.SemTake? && s.missed == {} {
      assert TaskInv(c, s, a.t);
      forall i | 0 <= i < |s.passed| ensures s.passed[i] < a.t {
        assert s.passed[i] in s.passed && a.t !in s.passed;
      }
    }
  }

  lemma InvStep(c: Config, s: State, a: Action)
    requires Inv(c, s) && Enabled(c, s, a)
    ensures Inv(c, Apply(c, s, a))
  {
    MgrStep(c, s, a);
    PassStep(c, s, a);
    forall t | 0 <= t < c.n ensures TaskInv(c, Apply(c, s, a), t) {
      if ByManager(a) { ManagerKeepsTask(c, s, a, t); } else { TaskKeepsTask(c, s, a, t); }
    }
  }

  lemma {:induction false} RunKeepsInv(c: Config, s: State, acts: seq<Action>)
    requires Inv(c, s) && Runs(c, s, acts)
    ensures Inv(c, Exec(c, s, acts))
    decreases acts
  {
    if acts == [] {
    } else {
      InvStep(c, s, acts[0]);
      RunKeepsInv(c, Apply(c, s, acts[0]), acts[1..]);
    }
  }

  /** A state that some run reaches. */
  ghost predicate Reachable(c: Config, s: State) {
    exists acts :: Runs(c, Start(c), acts) && Exec(c, Start(c), acts) == s
  }

  lemma ReachableInv(c: Config, s: State)
    requires c.Valid() && Reachable(c, s)
    ensures Inv(c, s)
  {
    var acts :| Runs(c, Start(c), acts) && Exec(c, Start(c), acts) == s;
    RunKeepsInv(c, Start(c), acts);
  }

  /** Without a timeout, initialisation is serial and in increasing order of task id. */
  lemma SerialStartup(c: Config, s: State)
    requires c.Valid() && Reachable(c, s) && s.missed == {}
    ensures forall t, u :: 0 <= t < c.n && 0 <= u < c.n && s.task[t].Initing? && s.task[u].Initing? ==> t == u
    ensures forall i, j :: 0 <= i < j < |s.passed| ==> s.passed[i] < s.passed[j]
    ensures forall t :: 0 <= t < c.n && s.task[t].Initing? ==> s.mgr == Awaiting(t)
  {
    ReachableInv(c, s);
    forall t | 0 <= t < c.n && s.task[t].Initing? ensures s.mgr == Awaiting(t) {
      assert TaskInv(c, s, t);
    }
  }

  /** Timeouts or not, a task passes only after every earlier one has signalled or been given up on. */
  lemma PassesAfterEarlier(c: Config, s: State, t: nat, u: nat)
    requires c.Valid() && Reachable(c, s) && t < u < c.n && c.App(t) && u in s.passed
    ensures SignalledStart(s.task[t]) || t in s.missed
  {
    ReachableInv(c, s);
    assert TaskInv(c, s, t) && TaskInv(c, s, u);
  }

  /** The ready latch, and with it every message callback, comes after all tasks signalled or timed out. */
  lemma ReadyAfterAll(c: Config, s: State)
    requires c.Valid() && Reachable(c, s) && (s.ready || (c.gated && s.ran != []))
    ensures forall t: nat :: c.App(t) ==> SignalledStart(s.task[t]) || t in s.missed
    ensures c.gated && s.ran != [] ==> s.ready
  {
    ReachableInv(c, s);
    forall t: nat | c.App(t) ensures SignalledStart(s.task[t]) || t in s.missed {
      assert TaskInv(c, s, t);
    }
  }

  /** With the ready gate, no message callback can run before the latch is set. */
  lemma CallbackAfterReady(c: Config, s: State, t: nat)
    requires c.Valid() && Reachable(c, s) && WF(c, s) && c.gated && Enabled(c, s, Callback(t))
    ensures s.ready
  {
    ReachableInv(c, s);
    assert TaskInv(c, s, t);
  }

  // ---- Shutdown barrier ----

  /** When an exit wait has returned RT_EOK for a non-zero mask, every registered application task is parked. */
  lemma BarrierParksAll(c: Config, s: State)
    requires c.Valid() && Reachable(c, s) && s.joined
    ensures forall t :: t in c.live && t != c.manager ==> t < |s.task| && s.task[t].Parked?
  {
    ReachableInv(c, s);
    forall t | t in c.live && t != c.manager ensures t < |s.task| && s.task[t].Parked? {
      assert c.App(t) && TaskInv(c, s, t);
    }
  }

  lemma NoCallback(c: Config, s: State, a: Action)
    requires Inv(c, s) && s.joined && Enabled(c, s, a)
    ensures !a.Callback?
  {
    forall t | 0 <= t < c.n && c.App(t) ensures s.task[t].Parked? {
      assert TaskInv(c, s, t);
    }
  }

  /** From then on no application callback ever runs, whatever is posted and however the run goes on. */
  lemma {:induction false} NoCallbackAfterBarrier(c: Config, s: State, acts: seq<Action>)
    requires Inv(c, s) && s.joined && Runs(c, s, acts)
    ensures Exec(c, s, acts).ran == s.ran && Exec(c, s, acts).joined && forall a :: a in acts ==> !a.Callback?
    decreases acts
  {
    if acts == [] {
    } else {
      NoCallback(c, s, acts[0]);
      InvStep(c, s, acts[0]);
      NoCallbackAfterBarrier(c, Apply(c, s, acts[0]), acts[1..]);
    }
  }

  /** The tasks whose callbacks a run executes, in order. */
  function CallbacksOf(acts: seq<Action>): seq<nat> {
    if acts == [] then [] else CallbackOf(acts[0]) + CallbacksOf(acts[1..])
  }

  function CallbackOf(a: Action): seq<nat> { if a.Callback? then [a.t] else [] }

  lemma RanStep(c: Config, s: State, a: Action)
    requires WF(c, s) && Enabled(c, s, a)
    ensures Apply(c, s, a).ran == s.ran + CallbackOf(a)
  {
  }

  /** The history of callbacks is that of the run's callback steps. */
  lemma {:induction false} RanAreCallbacks(c: Config, s: State, acts: seq<Action>)
    requires WF(c, s) && Runs(c, s, acts)
    ensures Exec(c, s, acts).ran == s.ran + CallbacksOf(acts)
    decreases acts
  {
    hide Apply, Enabled, CallbackOf;
    if acts == [] {
    } else {
      RanStep(c, s, acts[0]);
      RanAreCallbacks(c, Apply(c, s, acts[0]), acts[1..]);
      Regroup(s.ran, CallbackOf(acts[0]), CallbacksOf(acts[1..]));
    }
  }

  lemma BarrierIsFinal(c: Config, before: seq<Action>, after: seq<Action>)
    requires c.Valid() && Runs(c, Start(c), before) && Exec(c, Start(c), before).joined
    requires Runs(c, Exec(c, Start(c), before), after)
    ensures Exec(c, Exec(c, Start(c), before), after).ran == Exec(c, Start(c), before).ran
    ensures forall a :: a in after ==> !a.Callback?
  {
    RunKeepsInv(c, Start(c), before);
    NoCallbackAfterBarrier(c, Exec(c, Start(c), before), after);
  }

  /** The latch is never cleared. */
  lemma {:induction false} ReadyIsSticky(c: Config, s: State, acts: seq<Action>)
    requires WF(c, s) && s.ready && Runs(c, s, acts)
    ensures Exec(c, s, acts).ready
    decreases acts
  {
    if acts == [] {
    } else {
      ReadyIsSticky(c, Apply(c, s, acts[0]), acts[1..]);
    }
  }

  // ---- A request to exit is neither lost nor ignored ----

  /** The task took EXIT and has not signalled yet, or has. */
  predicate Exiting(k: Task) { k == Working(true) || k.Leaving? || k.Parked? }

  /** The task has been asked to exit, or is on its way out. */
  predicate Told(c: Config, s: State, t: nat)
    requires WF(c, s) && t < c.n
  {
    t in s.askBits || Exiting(s.task[t])
  }

  lemma ToldStep(c: Config, s: State, a: Action, t: nat)
    requires c.Valid() && WF(c, s) && Enabled(c, s, a) && t < c.n
    ensures Exiting(s.task[t]) ==> Exiting(Apply(c, s, a).task[t])
    ensures Told(c, s, t) ==> Told(c, Apply(c, s, a), t)
  {
  }

  lemma {:induction false} RunKeepsTold(c: Config, s: State, acts: seq<Action>, t: nat)
    requires c.Valid() && WF(c, s) && Runs(c, s, acts) && t < c.n
    ensures Exiting(s.task[t]) ==> Exiting(Exec(c, s, acts).task[t])
    ensures Told(c, s, t) ==> Told(c, Exec(c, s, acts), t)
    decreases acts
  {
    if acts == [] {
    } else {
      ToldStep(c, s, acts[0], t);
      RunKeepsTold(c, Apply(c, s, acts[0]), acts[1..], t);
    }
  }

  /** A task whose wake-up takes EXIT is, in every later state, draining towards its exit, leaving, or parked. */
  lemma ExitIsKept(c: Config, s: State, t: nat, after: seq<Action>)
    requires c.Valid() && WF(c, s) && Enabled(c, s, Wake(t)) && t in s.askBits && Runs(c, Apply(c, s, Wake(t)), after)
    ensures var k := Exec(c, Apply(c, s, Wake(t)), after).task[t]; k == Working(true) || k == Leaving || k == Parked
  {
    RunKeepsTold(c, Apply(c, s, Wake(t)), after, t);
  }

  /** A task that the shutdown sequence has asked keeps its EXIT bit until it takes it, and then is on its way out. */
  lemma AskIsRemembered(c: Config, s: State, after: seq<Action>)
    requires c.Valid() && WF(c, s) && s.mgr.Asking? && c.App(s.mgr.id) && Runs(c, Apply(c, s, MgrAsk), after)
    ensures var end := Exec(c, Apply(c, s, MgrAsk), after); var t := s.mgr.id;
            t in end.askBits || end.task[t] == Working(true) || end.task[t] == Leaving || end.task[t] == Parked
  {
    RunKeepsTold(c, Apply(c, s, MgrAsk), after, s.mgr.id);
  }

  /** Once the manager waits, every application task has been told; until the wait succeeds no signal is lost. */
  ghost predicate ShutdownInv(c: Config, s: State) {
    && WF(c, s)
    && (s.mgr.Asking? ==> forall t :: 0 <= t < c.n && c.App(t) && t < s.mgr.id ==> Told(c, s, t))
    && (s.mgr.Joining? ==> forall t :: 0 <= t < c.n && c.App(t) ==> Told(c, s, t))
    && (!s.joined ==> forall t :: 0 <= t < c.n && c.App(t) && s.task[t].Parked? ==> t in s.exitBits)
  }

  lemma ShutdownStep(c: Config, s: State, a: Action)
    requires Inv(c, s) && ShutdownInv(c, s) && Enabled(c, s, a)
    ensures ShutdownInv(c, Apply(c, s, a))
  {
    var s' := Apply(c, s, a);
    forall t | 0 <= t < c.n && Told(c, s, t) ensures Told(c, s', t) {
      ToldStep(c, s, a, t);
    }
  }

  lemma {:induction false} RunKeepsShutdown(c: Config, s: State, acts: seq<Action>)
    requires Inv(c, s) && ShutdownInv(c, s) && Runs(c, s, acts)
    ensures ShutdownInv(c, Exec(c, s, acts))
    decreases acts
  {
    if acts == [] {
    } else {
      InvStep(c, s, acts[0]);
      ShutdownStep(c, s, acts[0]);
      RunKeepsShutdown(c, Apply(c, s, acts[0]), acts[1..]);
    }
  }

  lemma RunCons(c: Config, s: State, a: Action, rest: seq<Action>)
    requires WF(c, s) && Enabled(c, s, a) && Runs(c, Apply(c, s, a), rest)
    ensures Runs(c, s, [a] + rest) && Exec(c, s, [a] + rest) == Exec(c, Apply(c, s, a), rest)
  {
    assert ([a] + rest)[1..] == rest;
  }

  lemma {:induction false} RunAppend(c: Config, s: State, a: seq<Action>, b: seq<Action>)
    requires WF(c, s) && Runs(c, s, a) && Runs(c, Exec(c, s, a), b)
    ensures Runs(c, s, a + b) && Exec(c, s, a + b) == Exec(c, Exec(c, s, a), b)
    decreases a
  {
    if a == [] {
      assert a + b == b;
    } else {
      RunAppend(c, Apply(c, s, a[0]), a[1..], b);
      RunCons(c, s, a[0], a[1..] + b);
      assert a + b == [a[0]] + (a[1..] + b);
    }
  }

  predicate PastGate(k: Task) { !k.Blocked? && !k.Initing? && !k.Gate? }

  /** Two states differ at most in what task t did. */
  predicate OnlyTask(c: Config, s: State, s': State, t: nat)
    requires WF(c, s) && WF(c, s')
  {
    && s'.mgr == s.mgr && s'.joined == s.joined && s.exitBits <= s'.exitBits
    && forall u :: 0 <= u < c.n && u != t ==> s'.task[u] == s.task[u] && (u in s'.askBits <==> u in s.askBits)
  }

  /** How far a told task is from parking. */
  function ToPark(k: Task): nat {
    match k
    case Working(exit) => if exit then 2 else 4
    case Idle => 3
    case Leaving => 1
    case _ => 0
  }

  /** A told task past the gate can take itself to its signal. */
  lemma {:induction false} ParkTask(c: Config, s: State, t: nat) returns (acts: seq<Action>)
    requires c.Valid() && WF(c, s) && t < c.n && c.App(t) && PastGate(s.task[t]) && Told(c, s, t)
    requires s.task[t].Parked? ==> t in s.exitBits
    ensures Runs(c, s, acts)
    ensures var s' := Exec(c, s, acts); OnlyTask(c, s, s', t) && s'.task[t].Parked? && t in s'.exitBits
    decreases ToPark(s.task[t])
  {
    if s.task[t].Parked? {
      acts := [];
    } else {
      var a := match s.task[t] case Working(_) => Drained(t) case Idle => Wake(t) case _ => Signal(t);
      ToldStep(c, s, a, t);
      var rest := ParkTask(c, Apply(c, s, a), t);
      RunCons(c, s, a, rest);
      acts := [a] + rest;
    }
  }

  predicate ParkedUpTo(c: Config, s: State, t: nat)
    requires WF(c, s)
  {
    forall u :: 0 <= u < c.n && u < t && c.App(u) ==> s.task[u].Parked? && u in s.exitBits
  }

  lemma {:induction false} ParkAll(c: Config, s: State, t: nat) returns (acts: seq<Action>)
    requires c.Valid() && WF(c, s) && t <= c.n && ParkedUpTo(c, s, t)
    requires forall u :: 0 <= u < c.n && c.App(u) ==> PastGate(s.task[u]) && Told(c, s, u)
    requires forall u :: 0 <= u < c.n && c.App(u) && s.task[u].Parked? ==> u in s.exitBits
    ensures Runs(c, s, acts)
    ensures var s' := Exec(c, s, acts); ParkedUpTo(c, s', c.n) && s'.mgr == s.mgr && s'.joined == s.joined
    decreases c.n - t
  {
    if t == c.n {
      acts := [];
    } else if c.App(t) {
      var now := ParkTask(c, s, t);
      var rest := ParkAll(c, Exec(c, s, now), t + 1);
      RunAppend(c, s, now, rest);
      acts := now + rest;
    } else {
      acts := ParkAll(c, s, t + 1);
    }
  }

  /**
   * The barrier can be met: from every reachable state in which the manager waits for the tasks to exit
   * and every application task is past the gate, some run ends with the wait satisfied and every
   * application task parked.
   */
  lemma ShutdownCompletes(c: Config, before: seq<Action>) returns (acts: seq<Action>)
    requires c.Valid() && Runs(c, Start(c), before)
    requires var s := Exec(c, Start(c), before); s.mgr.Joining? && forall t: nat :: c.App(t) ==> PastGate(s.task[t])
    ensures Runs(c, Exec(c, Start(c), before), acts)
    ensures var end := Exec(c, Exec(c, Start(c), before), acts);
            end.joined && forall t :: t in c.live && t != c.manager ==> end.task[t] == Parked
  {
    var s := Exec(c, Start(c), before);
    RunKeepsInv(c, Start(c), before);
    RunKeepsShutdown(c, Start(c), before);
    if s.joined {
      acts := [];
      BarrierParksAll(c, s);
    } else {
      acts := JoinAfterParking(c, s);
    }
  }

  lemma JoinAfterParking(c: Config, s: State) returns (acts: seq<Action>)
    requires Inv(c, s) && ShutdownInv(c, s) && s.mgr.Joining? && !s.joined
    requires forall t: nat :: c.App(t) ==> PastGate(s.task[t])
    ensures Runs(c, s, acts)
    ensures var end := Exec(c, s, acts);
            end.joined && forall t :: t in c.live && t != c.manager ==> end.task[t] == Parked
  {
    var parks := ParkAll(c, s, 0);
    var s1 := Exec(c, s, parks);
    forall t | t in ExitMask(c) ensures t in s1.exitBits {
      assert c.App(t);
    }
    RunCons(c, s1, MgrJoinOk, []);
    RunAppend(c, s, parks, [MgrJoinOk]);
    acts := parks + [MgrJoinOk];
    forall t | t in c.live && t != c.manager ensures Exec(c, s, acts).task[t] == Parked {
      assert c.App(t);
    }
  }

  // ---- The handshake can be completed ----

  /** The tasks below `t` that the handshake starts, in order. */
  function AppsBelow(c: Config, t: nat): seq<nat> {
    if t == 0 then [] else AppsBelow(c, t - 1) + (if c.App(t - 1) then [t - 1] else [])
  }

  /** The handshake has dealt with exactly the tasks below `t`, without timeouts. */
  predicate StartedUpTo(c: Config, s: State, t: nat)
    requires WF(c, s)
  {
    && s.mgr == Starting(t) && s.missed == {} && s.passed == AppsBelow(c, t) && !s.ready
    && (forall u :: 0 <= u < c.n && c.App(u) ==> s.task[u] == (if u < t then Gate else Blocked))
    && (forall u :: 0 <= u < c.n ==> s.sem[u] == 0) && s.startBits == {}
  }

  lemma StartOne(c: Config, s: State, t: nat) returns (acts: seq<Action>)
    requires c.Valid() && WF(c, s) && t < c.n && StartedUpTo(c, s, t)
    ensures Runs(c, s, acts) && StartedUpTo(c, Exec(c, s, acts), t + 1)
  {
    if c.App(t) {
      acts := [MgrLook, SemTake(t), InitEnd(t), MgrAck];
      var s1 := Apply(c, s, MgrLook);
      var s2 := Apply(c, s1, SemTake(t));
      var s3 := Apply(c, s2, InitEnd(t));
      RunCons(c, s3, MgrAck, []);
      RunCons(c, s2, InitEnd(t), [MgrAck]);
      RunCons(c, s1, SemTake(t), [InitEnd(t), MgrAck]);
      RunCons(c, s, MgrLook, [SemTake(t), InitEnd(t), MgrAck]);
      assert [MgrLook] + [SemTake(t), InitEnd(t), MgrAck] == acts;
    } else {
      acts := [MgrLook];
      RunCons(c, s, MgrLook, []);
    }
  }

  lemma {:induction false} StartAll(c: Config, t: nat) returns (acts: seq<Action>)
    requires c.Valid() && t <= c.n
    ensures Runs(c, Start(c), acts) && StartedUpTo(c, Exec(c, Start(c), acts), t)
  {
    if t == 0 {
      acts := [];
    } else {
      var before := StartAll(c, t - 1);
      var now := StartOne(c, Exec(c, Start(c), before), t - 1);
      RunAppend(c, Start(c), before, now);
      acts := before + now;
    }
  }

  /** The tasks below `t` are in their loops, the others at the gate. */
  predicate InLoopUpTo(c: Config, s: State, t: nat)
    requires WF(c, s)
  {
    forall u :: 0 <= u < c.n && c.App(u) ==> s.task[u] == if u < t then Idle else Gate
  }

  lemma {:induction false} PassAll(c: Config, s: State, t: nat) returns (acts: seq<Action>)
    requires c.Valid() && WF(c, s) && t <= c.n && InLoopUpTo(c, s, t) && (c.gated ==> s.ready)
    ensures Runs(c, s, acts)
    ensures var s' := Exec(c, s, acts); s' == s.(task := s'.task) && InLoopUpTo(c, s', c.n)
    decreases c.n - t
  {
    if t == c.n {
      acts := [];
    } else if c.App(t) {
      var s' := Apply(c, s, PassGate(t));
      var rest := PassAll(c, s', t + 1);
      RunCons(c, s, PassGate(t), rest);
      acts := [PassGate(t)] + rest;
    } else {
      acts := PassAll(c, s, t + 1);
    }
  }

  /**
   * The handshake can be completed: some run without timeouts starts every registered task but the
   * manager, in increasing order, publishes the latch if there is one, and leaves the manager serving and
   * each of these tasks in its loop.
   */
  lemma StartupCompletes(c: Config) returns (acts: seq<Action>)
    requires c.Valid()
    ensures Runs(c, Start(c), acts)
    ensures var s := Exec(c, Start(c), acts);
            && s.mgr == Serving && s.missed == {} && s.passed == AppsBelow(c, c.n) && (s.ready <==> c.gated)
            && forall t :: t in c.live && t != c.manager ==> t in s.passed && s.task[t] == Idle
  {
    var all := StartAll(c, c.n);
    var s := Exec(c, Start(c), all);
    RunCons(c, s, MgrLook, []);
    RunAppend(c, Start(c), all, [MgrLook]);
    var s1 := Exec(c, Start(c), all + [MgrLook]);
    var passes := PassAll(c, s1, 0);
    RunAppend(c, Start(c), all + [MgrLook], passes);
    acts := (all + [MgrLook]) + passes;
    RunKeepsInv(c, Start(c), acts);
    var end := Exec(c, Start(c), acts);
    assert InLoopUpTo(c, end, c.n);
    assert forall t :: t in c.live && t != c.manager ==> c.App(t) && TaskInv(c, end, t);
  }

  /** Mail for a task in its loop can be served: posted, it wakes the task, whose callback runs. */
  lemma MailIsServed(c: Config, s: State, t: nat)
    requires c.Valid() && WF(c, s) && c.App(t) && s.task[t].Idle?
    ensures Runs(c, s, [Post(t), Wake(t), Callback(t), Drained(t)])
    ensures var end := Exec(c, s, [Post(t), Wake(t), Callback(t), Drained(t)]);
            end.ran == s.ran + [t] && end.task[t] == if t in s.askBits then Leaving else Idle
  {
    hide TaskInv, MgrInv;
    var s1 := Apply(c, s, Post(t));
    var s2 := Apply(c, s1, Wake(t));
    var s3 := Apply(c, s2, Callback(t));
    RunCons(c, s3, Drained(t), []);
    RunCons(c, s2, Callback(t), [Drained(t)]);
    RunCons(c, s1, Wake(t), [Callback(t), Drained(t)]);
    RunCons(c, s, Post(t), [Wake(t), Callback(t), Drained(t)]);
    assert [Post(t)] + [Wake(t), Callback(t), Drained(t)] == [Post(t), Wake(t), Callback(t), Drained(t)];
  }

  // ---- The manager's loops over the ids ----

  /** _thread_exit_mask. */
  method CollectMask(c: Config) returns (m: set<nat>)
    requires c.Valid()
    ensures m == ExitMask(c) && forall t :: t in m <==> t in c.live && t != c.manager
  {
    m := {};
    for id := 0 to c.n
      invariant m == set t | t in ExitMask(c) && t < id
    {
      if id == c.manager {
        continue;
      }
      if id !in c.live {
        continue;
      }
      m := m + {id};
    }
  }

  /** _thread_request_exit_notify, with `notify[id]` the EXIT bit of task `id`. */
  method RequestExit(c: Config, notify: array<bool>)
    requires c.Valid() && notify.Length == c.n
    modifies notify
    ensures forall id :: 0 <= id < c.n ==> (notify[id] <==> old(notify[id]) || (id in c.live && id != c.manager))
  {
    for id := 0 to c.n
      invariant forall k :: 0 <= k < c.n ==>
                  (notify[k] <==> old(notify[k]) || (k < id && k in c.live && k != c.manager))
    {
      if id == c.manager {
        continue;
      }
      if id !in c.live {
        continue;
      }
      notify[id] := true;
    }
  }

  function Times(n: nat, a: Action): seq<Action> { if n == 0 then [] else [a] + Times(n - 1, a) }

  /** Left to itself, the shutdown sequence asks every application task and then waits for exactly those. */
  lemma {:induction false} ShutdownAsksAll(c: Config, s: State)
    requires c.Valid() && WF(c, s) && s.mgr.Asking? && s.mgr.id <= c.n
    ensures Runs(c, s, Times(c.n - s.mgr.id + 1, MgrAsk))
    ensures var end := Exec(c, s, Times(c.n - s.mgr.id + 1, MgrAsk));
            && end.askBits == s.askBits + (set t | t in ExitMask(c) && s.mgr.id <= t)
            && end.mgr == (if ExitMask(c) == {} then Serving else Joining(ExitMask(c)))
    decreases c.n - if s.mgr.Asking? then s.mgr.id else 0
  {
    var acts := Times(c.n - s.mgr.id + 1, MgrAsk);
    assert acts[0] == MgrAsk && acts[1..] == Times(c.n - s.mgr.id, MgrAsk);
    if s.mgr.id < c.n {
      ShutdownAsksAll(c, Apply(c, s, MgrAsk));
    } else {
      assert Times(0, MgrAsk) == [] && acts[1..] == [];
    }
  }
}
