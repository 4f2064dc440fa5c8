/**
 * One task's mailbox, block pool and notify event, as its senders and its single consumer use them.
 * The steps are the kernel calls of `_thread_evt_msg_forward` and of the consumer loop; any number of
 * senders and the consumer interleave at that granularity.
 */
module Mailbox {
  import opened Types
  import opened Lists

  /** sizeof(thread_msg_t) */
  const HEAD: nat := 12

  /** The fixed part of thread_control_t: `hasQueue`/`hasSlab` say whether msgq/msg_slab are non-NULL. */
  datatype Ctrl = Ctrl(hasQueue: bool, depth: nat, hasSlab: bool, blockSize: nat, slabNum: nat)

  datatype Block = Slab(i: nat) | Heap(h: nat)

  /** A filled message and the block it lives in. */
  datatype Packet = Packet(blk: Block, msg: Msg)

  /** The header's msg_len. */
  function Len(p: Packet): nat { |p.msg.payload| }

  /** Between which two kernel calls of a send a thread is. */
  datatype Sender =
    | Ready
    | Holding(blk: Block, want: Msg)   // allocated, header not written
    | Filled(p: Packet)                // header written, before rt_mb_send
    | Posted                           // after rt_mb_send, before rt_event_send

  /** Where the consumer loop is; `exit` says that the wake-up also took the EXIT bit. */
  datatype Consumer =
    | Starting
    | Waiting
    | Draining(exit: bool)
    | Handling(p: Packet, exit: bool)
    | Leaving
    | Parked

  /** The kernel objects of the task: free slab blocks, live heap messages, mailbox, MSG bit. */
  datatype Store = Store(free: set<nat>, heap: set<nat>, queue: seq<Packet>, msgBit: bool)

  datatype State = State(
    store: Store,
    exitBit: bool,
    consumer: Consumer,
    senders: seq<Sender>,
    arrived: nat,     // history: messages accepted
    served: nat,      // history: messages dispatched and freed
    owed: nat)        // history: `arrived` when MSG was last taken

  datatype Action =
    | Alloc(s: nat, m: Msg, dataOk: bool, got: Option<Block>)
    | Fill(s: nat)
    | Enqueue(s: nat)
    | Notify(s: nat)
    | AskExit
    | EnterLoop
    | Wake
    | Recv
    | Release
    | Signal

  // ---- Allocation and release ----

  predicate NeedsHeap(c: Ctrl, len: nat) { HEAD + len > c.blockSize }

  /** The outcomes `_thread_evt_msg_malloc` allows; the heap may refuse, the pool refuses only when empty. */
  predicate Allocates(c: Ctrl, st: Store, len: nat, dataOk: bool, got: Option<Block>) {
    if (len > 0 && !dataOk) || !c.hasQueue then got == None
    else if NeedsHeap(c, len) then got == None || (got.value.Heap? && got.value.h !in st.heap)
    else if !c.hasSlab || st.free == {} then got == None
    else got.Some? && got.value.Slab? && got.value.i in st.free
  }

  function TakeBlock(st: Store, b: Block): Store {
    match b
    case Slab(i) => st.(free := st.free - {i})
    case Heap(h) => st.(heap := st.heap + {h})
  }

  /** The three ways `thread_msg_evt_free` can go, chosen from the header alone. */
  datatype FreePath = ToHeap | ToPool | NoFree

  function ChooseFree(c: Ctrl, len: nat): FreePath {
    if NeedsHeap(c, len) then ToHeap else if c.hasSlab then ToPool else NoFree
  }

  /** Releasing a message; a release to the wrong allocator gives nothing back. */
  function GiveBack(c: Ctrl, st: Store, p: Packet): Store {
    match ChooseFree(c, Len(p))
    case ToHeap => if p.blk.Heap? then st.(heap := st.heap - {p.blk.h}) else st
    case ToPool => if p.blk.Slab? then st.(free := st.free + {p.blk.i}) else st
    case NoFree => st
  }

  // ---- Steps ----

  predicate Enabled(c: Ctrl, s: State, a: Action) {
    match a
    case Alloc(k, m, dataOk, got) => k < |s.senders| && s.senders[k].Ready?
        && Allocates(c, s.store, |m.payload|, dataOk, got)
    case Fill(k) => k < |s.senders| && s.senders[k].Holding?
    case Enqueue(k) => k < |s.senders| && s.senders[k].Filled?
    case Notify(k) => k < |s.senders| && s.senders[k].Posted?
    case AskExit => true
    case EnterLoop => s.consumer.Starting?
    case Wake => s.consumer.Waiting? && (s.store.msgBit || s.exitBit)
    case Recv => s.consumer.Draining?
    case Release => s.consumer.Handling?
    case Signal => s.consumer.Leaving?
  }

  function Apply(c: Ctrl, s: State, a: Action): State
    requires Enabled(c, s, a)
  {
    match a
    case Alloc(k, m, _, got) =>
      if got.None? then s
      else s.(store := TakeBlock(s.store, got.value), senders := s.senders[k := Holding(got.value, m)])
    case Fill(k) => s.(senders := s.senders[k := Filled(Packet(s.senders[k].blk, s.senders[k].want))])
    case Enqueue(k) =>
      var p := s.senders[k].p;
      if |s.store.queue| < c.depth then
        s.(store := s.store.(queue := s.store.queue + [p]), senders := s.senders[k := Posted], arrived := s.arrived + 1)
      else
        s.(store := GiveBack(c, s.store, p), senders := s.senders[k := Ready])
    case Notify(k) => s.(store := s.store.(msgBit := true), senders := s.senders[k := Ready])
    case AskExit => s.(exitBit := true)
    case EnterLoop => s.(consumer := Waiting)
    case Wake =>
      if s.store.msgBit then
        s.(store := s.store.(msgBit := false), exitBit := false, consumer := Draining(s.exitBit), owed := s.arrived)
      else s.(exitBit := false, consumer := Leaving)
    case Recv =>
      if s.store.queue != [] then
        s.(store := s.store.(queue := s.store.queue[1..]), consumer := Handling(s.store.queue[0], s.consumer.exit))
      else s.(consumer := if s.consumer.exit then Leaving else Waiting)
    case Release =>
      s.(store := GiveBack(c, s.store, s.consumer.p), consumer := Draining(s.consumer.exit), served := s.served + 1)
    case Signal => s.(consumer := Parked)
  }

  predicate Runs(c: Ctrl, s: State, acts: seq<Action>)
    decreases acts
  {
    acts == [] || (Enabled(c, s, acts[0]) && Runs(c, Apply(c, s, acts[0]), acts[1..]))
  }

  function Exec(c: Ctrl, s: State, acts: seq<Action>): State
    requires Runs(c, s, acts)
    decreases acts
  {
    if acts == [] then s else Exec(c, Apply(c, s, acts[0]), acts[1..])
  }

  function Ids(n: nat): (r: set<nat>)
    ensures forall i: nat :: i in r <==> i < n
    ensures |r| == n
  {
    if n == 0 then {} else Ids(n - 1) + {n - 1}
  }

  /** The identities of the pool's blocks. */
  function PoolOf(c: Ctrl): set<nat> { if c.hasSlab then Ids(c.slabNum) else {} }

  /** After bootstrap: full pool, empty mailbox, clear bits, n idle senders, the consumer not yet in its loop. */
  function Start(c: Ctrl, n: nat): State {
    State(Store(PoolOf(c), {}, [], false), false, Starting, seq(n, _ => Ready), 0, 0, 0)
  }

  // ---- No lost wake-up, and draining before exit ----

  predicate AnyPosted(ss: seq<Sender>) { exists k :: 0 <= k < |ss| && ss[k].Posted? }

  predicate DrainAhead(k: Consumer) { k.Draining? || k.Handling? }

  /**
   * Undelivered mail has a wake-up: set, about to be set, or taken by a consumer that has not seen the mailbox
   * empty.
   */
  predicate Awake(s: State) {
    s.store.queue != [] ==> s.store.msgBit || AnyPosted(s.senders) || DrainAhead(s.consumer)
  }

  predicate WakeInv(c: Ctrl, s: State) {
    && Awake(s)
    && s.arrived == s.served + |s.store.queue| + (if s.consumer.Handling? then 1 else 0)
    && s.owed <= s.arrived
    && (!DrainAhead(s.consumer) ==> s.owed <= s.served)
    && |s.store.queue| <= c.depth
  }

  lemma AwakeStep(c: Ctrl, s: State, a: Action)
    requires Awake(s) && Enabled(c, s, a)
    ensures Awake(Apply(c, s, a))
  {
    var s' := Apply(c, s, a);
    if a.Enqueue? {
      if |s.store.queue| < c.depth { assert s'.senders[a.s].Posted?; }
    }
    if AnyPosted(s.senders) {
      var k :| 0 <= k < |s.senders| && s.senders[k].Posted?;
      assert !s'.store.msgBit ==> s'.senders[k].Posted?;
    }
  }

  lemma WakeStep(c: Ctrl, s: State, a: Action)
    requires WakeInv(c, s) && Enabled(c, s, a)
    ensures WakeInv(c, Apply(c, s, a))
  {
    AwakeStep(c, s, a);
  }

  lemma {:induction false} RunKeepsWake(c: Ctrl, s: State, acts: seq<Action>)
    requires WakeInv(c, s) && Runs(c, s, acts)
    ensures WakeInv(c, Exec(c, s, acts))
    decreases acts
  {
    if acts == [] {
    } else {
      WakeStep(c, s, acts[0]);
      RunKeepsWake(c, Apply(c, s, acts[0]), acts[1..]);
    }
  }

  /** A consumer never sleeps on undelivered mail unless its wake-up is already set or about to be. */
  lemma NoLostWakeup(c: Ctrl, n: nat, acts: seq<Action>)
    requires Runs(c, Start(c, n), acts)
    ensures var s := Exec(c, Start(c, n), acts);
            && Awake(s)
            && (s.consumer.Waiting? && s.store.queue != [] ==> s.store.msgBit || AnyPosted(s.senders))
  {
    RunKeepsWake(c, Start(c, n), acts);
  }

  /** When the consumer signals its exit it has served every message that had arrived when it last took MSG. */
  lemma ExitDrainsFirst(c: Ctrl, n: nat, acts: seq<Action>)
    requires Runs(c, Start(c, n), acts)
    ensures var s := Exec(c, Start(c, n), acts); s.consumer.Leaving? || s.consumer.Parked? ==> s.served >= s.owed
  {
    RunKeepsWake(c, Start(c, n), acts);
  }

  /** The wake-up took EXIT, and the drain it started goes on. */
  predicate DrainingToExit(k: Consumer) { (k.Draining? || k.Handling?) && k.exit }

  /** At some step of the run the draining consumer receives and finds its mailbox empty. */
  ghost predicate SawEmpty(c: Ctrl, s: State, acts: seq<Action>)
    requires Runs(c, s, acts)
  {
    exists k :: 0 <= k < |acts| && RunsPrefix(c, s, acts, k) && acts[k] == Recv
                && Exec(c, s, acts[..k]).store.queue == [] && Exec(c, s, acts[..k]).consumer == Draining(true)
  }

  predicate RunsPrefix(c: Ctrl, s: State, acts: seq<Action>, k: int) { 0 <= k <= |acts| && Runs(c, s, acts[..k]) }

  lemma {:induction false} DrainsToEmpty(c: Ctrl, s: State, acts: seq<Action>)
    requires DrainingToExit(s.consumer) && Runs(c, s, acts)
    ensures DrainingToExit(Exec(c, s, acts).consumer) || SawEmpty(c, s, acts)
    decreases acts
  {
    if acts == [] {
    } else {
      var s', rest := Apply(c, s, acts[0]), acts[1..];
      if DrainingToExit(s'.consumer) {
        DrainsToEmpty(c, s', rest);
        if SawEmpty(c, s', rest) {
          var k :| 0 <= k < |rest| && RunsPrefix(c, s', rest, k) && rest[k] == Recv
                   && Exec(c, s', rest[..k]).store.queue == [] && Exec(c, s', rest[..k]).consumer == Draining(true);
          assert acts[..k + 1][1..] == rest[..k];
          assert RunsPrefix(c, s, acts, k + 1);
        }
      } else {
        assert acts[..0] == [] && RunsPrefix(c, s, acts, 0);
      }
    }
  }

  /**
   * A task that takes EXIT together with a pending MSG never goes back to waiting: it serves everything
   * that has arrived, receives until it finds its mailbox empty, and only then leaves.
   */
  lemma ExitWithMail(c: Ctrl, n: nat, before: seq<Action>, after: seq<Action>)
    requires Runs(c, Start(c, n), before)
    requires var s := Exec(c, Start(c, n), before); Enabled(c, s, Wake) && s.store.msgBit && s.exitBit
    requires var s := Exec(c, Start(c, n), before); Runs(c, Apply(c, s, Wake), after)
    ensures var s := Exec(c, Start(c, n), before); var end := Exec(c, Apply(c, s, Wake), after);
            && (DrainingToExit(end.consumer) || end.consumer.Leaving? || end.consumer.Parked?)
            && (end.consumer.Leaving? || end.consumer.Parked? ==>
                  end.served >= s.arrived && SawEmpty(c, Apply(c, s, Wake), after))
  {
    var s := Exec(c, Start(c, n), before);
    RunKeepsWake(c, Start(c, n), before);
    WakeStep(c, s, Wake);
    RunKeepsWake(c, Apply(c, s, Wake), after);
    DrainsToEmpty(c, Apply(c, s, Wake), after);
    ExitIsKept(c, Apply(c, s, Wake), after);
    OwedGrows(c, Apply(c, s, Wake), after);
  }

  /** On its way out: EXIT was taken. */
  predicate Exiting(k: Consumer) { DrainingToExit(k) || k.Leaving? || k.Parked? }

  lemma {:induction false} ExitIsKept(c: Ctrl, s: State, acts: seq<Action>)
    requires Exiting(s.consumer) && Runs(c, s, acts)
    ensures Exiting(Exec(c, s, acts).consumer)
    decreases acts
  {
    if acts == [] {
    } else {
      ExitIsKept(c, Apply(c, s, acts[0]), acts[1..]);
    }
  }

  /** A pending EXIT bit stays until it is taken, and then the task is on its way out. */
  lemma {:induction false} ExitIsRemembered(c: Ctrl, s: State, acts: seq<Action>)
    requires (s.exitBit || Exiting(s.consumer)) && Runs(c, s, acts)
    ensures Exec(c, s, acts).exitBit || Exiting(Exec(c, s, acts).consumer)
    decreases acts
  {
    if acts == [] {
    } else {
      ExitIsRemembered(c, Apply(c, s, acts[0]), acts[1..]);
    }
  }

  /** How far the consumer is from parking when nobody sends. */
  function ToPark(s: State): nat {
    match s.consumer
    case Starting => 7 + 2 * |s.store.queue|
    case Handling(_, exit) => (if exit then 3 else 6) + 2 * |s.store.queue|
    case Draining(exit) => (if exit then 2 else 5) + 2 * |s.store.queue|
    case Waiting => 4 + 2 * |s.store.queue|
    case Leaving => 1
    case Parked => 0
  }

  predicate ByConsumer(a: Action) { a.EnterLoop? || a.Wake? || a.Recv? || a.Release? || a.Signal? }

  function NextOut(s: State): Action {
    match s.consumer
    case Starting => EnterLoop
    case Handling(_, _) => Release
    case Draining(_) => Recv
    case Waiting => Wake
    case _ => Signal
  }

  lemma {:induction false} WayOut(c: Ctrl, s: State) returns (acts: seq<Action>)
    requires s.exitBit || Exiting(s.consumer)
    ensures Runs(c, s, acts) && Exec(c, s, acts).consumer.Parked? && forall a :: a in acts ==> ByConsumer(a)
    decreases ToPark(s)
  {
    if s.consumer.Parked? {
      acts := [];
    } else {
      var a := NextOut(s);
      var rest := WayOut(c, Apply(c, s, a));
      RunCons(c, s, a, rest);
      acts := [a] + rest;
    }
  }

  /** Whatever has happened since a task was asked to exit, its own steps alone can take it to its signal. */
  lemma ExitCompletes(c: Ctrl, n: nat, before: seq<Action>, after: seq<Action>) returns (acts: seq<Action>)
    requires Runs(c, Start(c, n), before) && Runs(c, Apply(c, Exec(c, Start(c, n), before), AskExit), after)
    ensures var s := Exec(c, Apply(c, Exec(c, Start(c, n), before), AskExit), after);
            Runs(c, s, acts) && Exec(c, s, acts).consumer.Parked?
    ensures forall a :: a in acts ==> ByConsumer(a)
  {
    ExitIsRemembered(c, Apply(c, Exec(c, Start(c, n), before), AskExit), after);
    acts := WayOut(c, Exec(c, Apply(c, Exec(c, Start(c, n), before), AskExit), after));
  }

  lemma {:induction false} OwedGrows(c: Ctrl, s: State, acts: seq<Action>)
    requires WakeInv(c, s) && Runs(c, s, acts)
    ensures Exec(c, s, acts).owed >= s.owed
    decreases acts
  {
    if acts == [] {
    } else {
      WakeStep(c, s, acts[0]);
      OwedGrows(c, Apply(c, s, acts[0]), acts[1..]);
    }
  }

  // ---- Block ownership ----

  /** What a tally counts: one block, or every slab block. */
  datatype Sel = Only(b: Block) | AnySlab

  function One(b: Block, sel: Sel): nat {
    if (sel.Only? && b == sel.b) || (sel.AnySlab? && b.Slab?) then 1 else 0
  }

  function InQueue(q: seq<Packet>, sel: Sel): nat {
    if q == [] then 0 else One(q[0].blk, sel) + InQueue(q[1..], sel)
  }

  function HeldBy(x: Sender, sel: Sel): nat {
    match x
    case Holding(b, _) => One(b, sel)
    case Filled(p) => One(p.blk, sel)
    case _ => 0
  }

  function InSenders(ss: seq<Sender>, sel: Sel): nat {
    if ss == [] then 0 else HeldBy(ss[0], sel) + InSenders(ss[1..], sel)
  }

  function InHand(k: Consumer, sel: Sel): nat {
    if k.Handling? then One(k.p.blk, sel) else 0
  }

  /** How often the selected blocks occur outside the pool: mailbox, consumer's hand, senders' hands. */
  function Outside(s: State, sel: Sel): nat {
    InQueue(s.store.queue, sel) + InHand(s.consumer, sel) + InSenders(s.senders, sel)
  }

  /** How many places block b is in, the pool included. */
  function Places(s: State, b: Block): nat {
    (if b.Slab? && b.i in s.store.free then 1 else 0) + Outside(s, Only(b))
  }

  /** The blocks there are: the pool's, and the live heap messages. */
  predicate Exists(c: Ctrl, s: State, b: Block) {
    match b
    case Slab(i) => i in PoolOf(c)
    case Heap(h) => h in s.store.heap
  }

  /** The block is from the allocator that the length selects. */
  predicate Agrees(c: Ctrl, b: Block, len: nat) {
    ChooseFree(c, len) == (if b.Heap? then ToHeap else ToPool)
  }

  predicate SenderAgrees(c: Ctrl, x: Sender) {
    (x.Holding? ==> Agrees(c, x.blk, |x.want.payload|)) && (x.Filled? ==> Agrees(c, x.p.blk, Len(x.p)))
  }

  predicate AgreeInv(c: Ctrl, s: State) {
    && (forall i :: 0 <= i < |s.store.queue| ==> Agrees(c, s.store.queue[i].blk, Len(s.store.queue[i])))
    && (s.consumer.Handling? ==> Agrees(c, s.consumer.p.blk, Len(s.consumer.p)))
    && (forall k :: 0 <= k < |s.senders| ==> SenderAgrees(c, s.senders[k]))
  }

  predicate OwnedOnce(c: Ctrl, s: State, b: Block) {
    Places(s, b) == if Exists(c, s, b) then 1 else 0
  }

  ghost predicate OwnInv(c: Ctrl, s: State) {
    && AgreeInv(c, s)
    && (forall b :: OwnedOnce(c, s, b))
    && (c.hasSlab ==> |s.store.free| + Outside(s, AnySlab) == c.slabNum)
  }

  lemma AgreeStep(c: Ctrl, s: State, a: Action)
    requires AgreeInv(c, s) && Enabled(c, s, a)
    ensures AgreeInv(c, Apply(c, s, a))
  {
  }

  lemma {:induction false} InSendersUpdate(ss: seq<Sender>, k: nat, x: Sender, sel: Sel)
    requires k < |ss|
    ensures InSenders(ss[k := x], sel) + HeldBy(ss[k], sel) == InSenders(ss, sel) + HeldBy(x, sel)
  {
    if k == 0 {
      assert ss[0 := x][1..] == ss[1..];
    } else {
      assert ss[k := x][1..] == ss[1..][k - 1 := x];
      InSendersUpdate(ss[1..], k - 1, x, sel);
    }
  }

  lemma {:induction false} InQueueSnoc(q: seq<Packet>, p: Packet, sel: Sel)
    ensures InQueue(q + [p], sel) == InQueue(q, sel) + One(p.blk, sel)
  {
    if q == [] {
    } else {
      assert (q + [p])[1..] == q[1..] + [p];
      InQueueSnoc(q[1..], p, sel);
    }
  }

  /** The block an action takes from an allocator, if any. */
  function TakenBy(a: Action): Option<Block> { if a.Alloc? then a.got else None }

  /** The message an action gives back to its allocator, if any. */
  function FreedBy(c: Ctrl, s: State, a: Action): Option<Packet>
    requires Enabled(c, s, a)
  {
    if a.Release? then Some(s.consumer.p)
    else if a.Enqueue? && |s.store.queue| >= c.depth then Some(s.senders[a.s].p)
    else None
  }

  /** Blocks enter and leave circulation only through the allocators. */
  lemma OutsideStep(c: Ctrl, s: State, a: Action, sel: Sel)
    requires Enabled(c, s, a)
    ensures Outside(Apply(c, s, a), sel) + (if FreedBy(c, s, a).Some? then One(FreedBy(c, s, a).value.blk, sel) else 0)
         == Outside(s, sel) + (if TakenBy(a).Some? then One(TakenBy(a).value, sel) else 0)
  {
    var s' := Apply(c, s, a);
    match a
    case Alloc(k, m, _, got) => if got.Some? { InSendersUpdate(s.senders, k, s'.senders[k], sel); }
    case Fill(k) => InSendersUpdate(s.senders, k, s'.senders[k], sel);
    case Enqueue(k) => OutsideEnqueue(c, s, k, sel);
    case Notify(k) => InSendersUpdate(s.senders, k, Ready, sel);
    case _ =>
  }

  lemma OutsideEnqueue(c: Ctrl, s: State, k: nat, sel: Sel)
    requires Enabled(c, s, Enqueue(k))
    ensures Outside(Apply(c, s, Enqueue(k)), sel)
         == if |s.store.queue| < c.depth then Outside(s, sel) else Outside(s, sel) - One(s.senders[k].p.blk, sel)
  {
    InSendersUpdate(s.senders, k, Apply(c, s, Enqueue(k)).senders[k], sel);
    InQueueSnoc(s.store.queue, s.senders[k].p, sel);
  }

  lemma {:induction false} HeldIsCounted(ss: seq<Sender>, k: nat, sel: Sel)
    requires k < |ss|
    ensures HeldBy(ss[k], sel) <= InSenders(ss, sel)
  {
    if k == 0 {
    } else {
      HeldIsCounted(ss[1..], k - 1, sel);
    }
  }

  /** A message about to be given back is outside the pool, in the block its header selects. */
  lemma FreedIsOutside(c: Ctrl, s: State, a: Action)
    requires AgreeInv(c, s) && Enabled(c, s, a) && FreedBy(c, s, a).Some?
    ensures var p := FreedBy(c, s, a).value; Agrees(c, p.blk, Len(p)) && Outside(s, Only(p.blk)) >= 1
  {
    if a.Enqueue? {
      assert SenderAgrees(c, s.senders[a.s]);
      HeldIsCounted(s.senders, a.s, Only(s.senders[a.s].p.blk));
    }
  }

  /** How the two allocators' records change. */
  lemma StoreStep(c: Ctrl, s: State, a: Action)
    requires Enabled(c, s, a)
    ensures var s' := Apply(c, s, a);
            if FreedBy(c, s, a).Some? then
              s'.store.free == GiveBack(c, s.store, FreedBy(c, s, a).value).free
              && s'.store.heap == GiveBack(c, s.store, FreedBy(c, s, a).value).heap
            else if TakenBy(a).Some? then s'.store == TakeBlock(s.store, TakenBy(a).value)
            else s'.store.free == s.store.free && s'.store.heap == s.store.heap
  {
  }

  lemma OwnedStep(c: Ctrl, s: State, a: Action, b: Block)
    requires AgreeInv(c, s) && Enabled(c, s, a) && OwnedOnce(c, s, b)
    ensures OwnedOnce(c, Apply(c, s, a), b)
  {
    hide Outside;
    OutsideStep(c, s, a, Only(b));
    StoreStep(c, s, a);
    if FreedBy(c, s, a).Some? { FreedIsOutside(c, s, a); }
  }

  lemma PoolSizeStep(c: Ctrl, s: State, a: Action)
    requires OwnInv(c, s) && Enabled(c, s, a) && c.hasSlab
    ensures |Apply(c, s, a).store.free| + Outside(Apply(c, s, a), AnySlab) == c.slabNum
  {
    OutsideStep(c, s, a, AnySlab);
    StoreStep(c, s, a);
    if FreedBy(c, s, a).Some? {
      FreedIsOutside(c, s, a);
      assert OwnedOnce(c, s, FreedBy(c, s, a).value.blk);
    }
  }

  lemma OwnStep(c: Ctrl, s: State, a: Action)
    requires OwnInv(c, s) && Enabled(c, s, a)
    ensures OwnInv(c, Apply(c, s, a))
  {
    AgreeStep(c, s, a);
    forall b ensures OwnedOnce(c, Apply(c, s, a), b) {
      assert OwnedOnce(c, s, b);
      OwnedStep(c, s, a, b);
    }
    if c.hasSlab { PoolSizeStep(c, s, a); }
  }

  lemma {:induction false} NobodyHolds(ss: seq<Sender>, sel: Sel)
    requires forall k :: 0 <= k < |ss| ==> !ss[k].Holding? && !ss[k].Filled?
    ensures InSenders(ss, sel) == 0
  {
    if ss == [] {
    } else {
      NobodyHolds(ss[1..], sel);
    }
  }

  lemma StartOwns(c: Ctrl, n: nat)
    ensures OwnInv(c, Start(c, n))
  {
    forall sel ensures Outside(Start(c, n), sel) == 0 {
      NobodyHolds(Start(c, n).senders, sel);
    }
    forall b ensures OwnedOnce(c, Start(c, n), b) {
      assert Outside(Start(c, n), Only(b)) == 0;
    }
  }

  lemma {:induction false} RunKeepsOwners(c: Ctrl, s: State, acts: seq<Action>)
    requires OwnInv(c, s) && Runs(c, s, acts)
    ensures OwnInv(c, Exec(c, s, acts))
    decreases acts
  {
    if acts == [] {
    } else {
      OwnStep(c, s, acts[0]);
      RunKeepsOwners(c, Apply(c, s, acts[0]), acts[1..]);
    }
  }

  /**
   * In every reachable state each pool block and each live heap message is in exactly one place and no
   * other block is anywhere; and every message outside the pool will be released by the allocator it came from.
   */
  lemma OneOwner(c: Ctrl, n: nat, acts: seq<Action>, b: Block)
    requires Runs(c, Start(c, n), acts)
    ensures var s := Exec(c, Start(c, n), acts);
            Places(s, b) == (if Exists(c, s, b) then 1 else 0) && AgreeInv(c, s)
  {
    StartOwns(c, n);
    RunKeepsOwners(c, Start(c, n), acts);
    assert OwnedOnce(c, Exec(c, Start(c, n), acts), b);
  }

  /** The message lies in the mailbox, in the consumer's hand or in a sender's. */
  predicate Filed(s: State, p: Packet) {
    p in s.store.queue || (s.consumer.Handling? && s.consumer.p == p)
    || exists k :: 0 <= k < |s.senders| && s.senders[k] == Filled(p)
  }

  /**
   * For every filled message of every run, the choice the release recomputes from the header is the
   * one the allocation made: the silent no-free case is unreachable. The choice is right: a message is in
   * a pool block exactly when the block holds it with its twelve-byte header.
   */
  lemma AllocatorAgreement(c: Ctrl, n: nat, acts: seq<Action>, p: Packet)
    requires Runs(c, Start(c, n), acts) && Filed(Exec(c, Start(c, n), acts), p)
    ensures ChooseFree(c, Len(p)) != NoFree && (ChooseFree(c, Len(p)) == ToHeap <==> p.blk.Heap?)
    ensures p.blk.Slab? <==> 12 + |p.msg.payload| <= c.blockSize
  {
    StartOwns(c, n);
    RunKeepsOwners(c, Start(c, n), acts);
    var s := Exec(c, Start(c, n), acts);
    if k :| 0 <= k < |s.senders| && s.senders[k] == Filled(p) {
      assert SenderAgrees(c, s.senders[k]);
    }
  }

  /**
   * Free slab blocks and slab blocks in the mailbox, in the consumer's hand and in senders' hands add up to the
   * pool.
   */
  lemma SlabConservation(c: Ctrl, n: nat, acts: seq<Action>)
    requires Runs(c, Start(c, n), acts) && c.hasSlab
    ensures var s := Exec(c, Start(c, n), acts);
            |s.store.free| + InQueue(s.store.queue, AnySlab) + InHand(s.consumer, AnySlab)
            + InSenders(s.senders, AnySlab)
            == c.slabNum
  {
    StartOwns(c, n);
    RunKeepsOwners(c, Start(c, n), acts);
  }

  lemma QuietIsClean(c: Ctrl, s: State)
    requires OwnInv(c, s) && s.store.queue == [] && !s.consumer.Handling?
    requires forall k :: 0 <= k < |s.senders| ==> !s.senders[k].Holding? && !s.senders[k].Filled?
    ensures s.store.free == PoolOf(c) && s.store.heap == {}
  {
    forall b ensures OwnedOnce(c, s, b) && Outside(s, Only(b)) == 0 {
      NobodyHolds(s.senders, Only(b));
    }
    forall h ensures h !in s.store.heap {
      assert OwnedOnce(c, s, Heap(h));
    }
    forall i ensures i in s.store.free <==> i in PoolOf(c) {
      assert OwnedOnce(c, s, Slab(i));
    }
  }

  /** An idle, empty system has a full pool and no heap messages. */
  lemma IdleIsClean(c: Ctrl, n: nat, acts: seq<Action>)
    requires Runs(c, Start(c, n), acts)
    requires var s := Exec(c, Start(c, n), acts);
             && s.store.queue == [] && !s.consumer.Handling?
             && forall k :: 0 <= k < |s.senders| ==> !s.senders[k].Holding? && !s.senders[k].Filled?
    ensures var s := Exec(c, Start(c, n), acts); s.store.free == PoolOf(c) && s.store.heap == {}
  {
    StartOwns(c, n);
    RunKeepsOwners(c, Start(c, n), acts);
    QuietIsClean(c, Exec(c, Start(c, n), acts));
  }

  /** The same of a block whose message is not written yet. */
  lemma HeldBlockFits(c: Ctrl, n: nat, acts: seq<Action>, k: nat)
    requires Runs(c, Start(c, n), acts)
    requires var s := Exec(c, Start(c, n), acts); k < |s.senders| && s.senders[k].Holding?
    ensures var x := Exec(c, Start(c, n), acts).senders[k]; x.blk.Slab? <==> 12 + |x.want.payload| <= c.blockSize
  {
    StartOwns(c, n);
    RunKeepsOwners(c, Start(c, n), acts);
    assert SenderAgrees(c, Exec(c, Start(c, n), acts).senders[k]);
  }

  // ---- Contents and order ----

  /** The message a step puts into the mailbox, if any. */
  function Accepted(c: Ctrl, s: State, a: Action): seq<Packet>
    requires Enabled(c, s, a)
  {
    if a.Enqueue? && |s.store.queue| < c.depth then [s.senders[a.s].p] else []
  }

  /** The message a step gives the consumer to handle, if any. */
  function Obtained(c: Ctrl, s: State, a: Action): seq<Packet>
    requires Enabled(c, s, a)
  {
    if a.Recv? && Apply(c, s, a).consumer.Handling? then [Apply(c, s, a).consumer.p] else []
  }

  function Enqueued(c: Ctrl, s: State, acts: seq<Action>): seq<Packet>
    requires Runs(c, s, acts)
    decreases acts
  {
    if acts == [] then [] else Accepted(c, s, acts[0]) + Enqueued(c, Apply(c, s, acts[0]), acts[1..])
  }

  function Handled(c: Ctrl, s: State, acts: seq<Action>): seq<Packet>
    requires Runs(c, s, acts)
    decreases acts
  {
    if acts == [] then [] else Obtained(c, s, acts[0]) + Handled(c, Apply(c, s, acts[0]), acts[1..])
  }

  lemma OneInOrder(c: Ctrl, s: State, a: Action)
    requires Enabled(c, s, a)
    ensures s.store.queue + Accepted(c, s, a) == Obtained(c, s, a) + Apply(c, s, a).store.queue
  {
  }

  /** The consumer handles exactly what the mailbox accepts, unchanged and in order; the rest is in the mailbox. */
  lemma {:induction false} MailInOrder(c: Ctrl, s: State, acts: seq<Action>)
    requires Runs(c, s, acts)
    ensures s.store.queue + Enqueued(c, s, acts) == Handled(c, s, acts) + Exec(c, s, acts).store.queue
    decreases acts
  {
    hide Apply, Enabled, Accepted, Obtained;
    if acts == [] {
    } else {
      var a := acts[0];
      var s' := Apply(c, s, a);
      MailInOrder(c, s', acts[1..]);
      OneInOrder(c, s, a);
      var q, more, got := s.store.queue, Accepted(c, s, a), Obtained(c, s, a);
      assert q + (more + Enqueued(c, s', acts[1..])) == (q + more) + Enqueued(c, s', acts[1..]);
      assert got + (s'.store.queue + Enqueued(c, s', acts[1..])) == (got + s'.store.queue) + Enqueued(c, s', acts[1..]);
    }
  }

  /** Until it enqueues, a sender keeps the block it got and the message it was called with. */
  lemma {:induction false} SenderKeepsMessage(c: Ctrl, s: State, acts: seq<Action>, k: nat, b: Block, m: Msg)
    requires k < |s.senders| && (s.senders[k] == Holding(b, m) || s.senders[k] == Filled(Packet(b, m)))
    requires Runs(c, s, acts) && Enqueue(k) !in acts
    ensures var end := Exec(c, s, acts);
            k < |end.senders| && (end.senders[k] == Holding(b, m) || end.senders[k] == Filled(Packet(b, m)))
    decreases acts
  {
    if acts == [] {
    } else {
      assert acts[0] in acts;
      SenderKeepsMessage(c, Apply(c, s, acts[0]), acts[1..], k, b, m);
    }
  }

  // ---- Slab sizing ----

  function Holders(ss: seq<Sender>): nat {
    if ss == [] then 0 else (if ss[0].Holding? || ss[0].Filled? then 1 else 0) + Holders(ss[1..])
  }

  lemma {:induction false} SlabsInQueue(q: seq<Packet>)
    ensures InQueue(q, AnySlab) <= |q|
  {
    if q == [] {
    } else {
      SlabsInQueue(q[1..]);
    }
  }

  lemma {:induction false} SlabsInSenders(ss: seq<Sender>)
    ensures InSenders(ss, AnySlab) <= Holders(ss)
  {
    if ss == [] {
    } else {
      SlabsInSenders(ss[1..]);
    }
  }

  /**
   * With msgq_depth + 2 blocks, the pool is empty only if the mailbox holds at least
   * msgq_depth + 1 less the number of messages in senders' hands.
   */
  lemma SlabSizing(c: Ctrl, n: nat, acts: seq<Action>)
    requires Runs(c, Start(c, n), acts) && c.hasSlab && c.slabNum == c.depth + 2
    requires Exec(c, Start(c, n), acts).store.free == {}
    ensures var s := Exec(c, Start(c, n), acts); |s.store.queue| + Holders(s.senders) >= c.depth + 1
  {
    SlabConservation(c, n, acts);
    var s := Exec(c, Start(c, n), acts);
    SlabsInQueue(s.store.queue);
    SlabsInSenders(s.senders);
  }

  /** A send that is the only one in flight never finds the pool empty; with one other, only if the mailbox is full. */
  lemma FewSendersAllocate(c: Ctrl, n: nat, acts: seq<Action>)
    requires Runs(c, Start(c, n), acts) && c.hasSlab && c.slabNum == c.depth + 2
    requires Exec(c, Start(c, n), acts).store.free == {}
    ensures var s := Exec(c, Start(c, n), acts);
            Holders(s.senders) > 0 && (Holders(s.senders) == 1 ==> |s.store.queue| == c.depth)
  {
    SlabSizing(c, n, acts);
    RunKeepsWake(c, Start(c, n), acts);
  }

  // ---- An uninterrupted send ----

  /** What a send leaves behind when nothing else runs: the block allocated for it, then the mailbox's verdict. */
  function Sent(c: Ctrl, st: Store, m: Msg, got: Option<Block>): Store {
    if got.None? || |st.queue| >= c.depth then st
    else TakeBlock(st, got.value).(queue := st.queue + [Packet(got.value, m)], msgBit := true)
  }

  /** A block that was just taken goes back where it came from. */
  lemma TakeThenGiveBack(c: Ctrl, st: Store, m: Msg, dataOk: bool, got: Option<Block>)
    requires Allocates(c, st, |m.payload|, dataOk, got) && got.Some?
    ensures Agrees(c, got.value, |m.payload|)
    ensures GiveBack(c, TakeBlock(st, got.value), Packet(got.value, m)) == st
  {
    match got.value
    case Slab(i) => assert st.free - {i} + {i} == st.free;
    case Heap(h) => assert st.heap + {h} - {h} == st.heap;
  }

  /** The kernel calls of one send, in order. */
  function SendActions(c: Ctrl, st: Store, k: nat, m: Msg, dataOk: bool, got: Option<Block>): seq<Action> {
    if got.None? then [Alloc(k, m, dataOk, got)]
    else if |st.queue| >= c.depth then [Alloc(k, m, dataOk, got), Fill(k), Enqueue(k)]
    else [Alloc(k, m, dataOk, got), Fill(k), Enqueue(k), Notify(k)]
  }

  lemma RunCons(c: Ctrl, s: State, a: Action, rest: seq<Action>)
    requires Enabled(c, s, a) && Runs(c, Apply(c, s, a), rest)
    ensures Runs(c, s, [a] + rest) && Exec(c, s, [a] + rest) == Exec(c, Apply(c, s, a), rest)
  {
    assert ([a] + rest)[1..] == rest;
  }

  /** Run without interruption, the steps of a send amount to `Sent`: a refused message leaves no trace. */
  lemma UninterruptedSend(c: Ctrl, s: State, k: nat, m: Msg, dataOk: bool, got: Option<Block>)
    requires k < |s.senders| && s.senders[k].Ready? && Allocates(c, s.store, |m.payload|, dataOk, got)
    ensures var acts := SendActions(c, s.store, k, m, dataOk, got);
            && Runs(c, s, acts)
            && Exec(c, s, acts) == s.(store := Sent(c, s.store, m, got),
                                      arrived := s.arrived + if got.Some? && |s.store.queue| < c.depth then 1 else 0)
            && (if got.Some? && |s.store.queue| < c.depth
                then Exec(c, s, acts).store.msgBit
                     && Exec(c, s, acts).store.queue == s.store.queue + [Packet(got.value, m)]
                else Exec(c, s, acts) == s)
  {
    if got.None? {
      RunCons(c, s, Alloc(k, m, dataOk, got), []);
    } else if |s.store.queue| < c.depth {
      AcceptedSend(c, s, k, m, dataOk, got);
    } else {
      RefusedSend(c, s, k, m, dataOk, got);
    }
  }

  lemma AcceptedSend(c: Ctrl, s: State, k: nat, m: Msg, dataOk: bool, got: Option<Block>)
    requires k < |s.senders| && s.senders[k].Ready? && Allocates(c, s.store, |m.payload|, dataOk, got)
    requires got.Some? && |s.store.queue| < c.depth
    ensures var acts := SendActions(c, s.store, k, m, dataOk, got);
            Runs(c, s, acts) && Exec(c, s, acts) == s.(store := Sent(c, s.store, m, got), arrived := s.arrived + 1)
  {
    hide GiveBack, Allocates;
    var a0 := Alloc(k, m, dataOk, got);
    var s1 := Apply(c, s, a0);
    var s2 := Apply(c, s1, Fill(k));
    var s3 := Apply(c, s2, Enqueue(k));
    assert Apply(c, s3, Notify(k)).senders == s.senders;
    RunCons(c, s3, Notify(k), []);
    RunCons(c, s2, Enqueue(k), [Notify(k)]);
    RunCons(c, s1, Fill(k), [Enqueue(k), Notify(k)]);
    RunCons(c, s, a0, [Fill(k), Enqueue(k), Notify(k)]);
  }

  lemma RefusedSend(c: Ctrl, s: State, k: nat, m: Msg, dataOk: bool, got: Option<Block>)
    requires k < |s.senders| && s.senders[k].Ready? && Allocates(c, s.store, |m.payload|, dataOk, got)
    requires got.Some? && |s.store.queue| >= c.depth
    ensures var acts := SendActions(c, s.store, k, m, dataOk, got); Runs(c, s, acts) && Exec(c, s, acts) == s
  {
    var a0 := Alloc(k, m, dataOk, got);
    TakeThenGiveBack(c, s.store, m, dataOk, got);
    var s1 := Apply(c, s, a0);
    var s2 := Apply(c, s1, Fill(k));
    assert Apply(c, s2, Enqueue(k)).senders == s.senders;
    RunCons(c, s2, Enqueue(k), []);
    RunCons(c, s1, Fill(k), [Enqueue(k)]);
    RunCons(c, s, a0, [Fill(k), Enqueue(k)]);
  }

  // ---- The sizing bound is attained ----

  lemma {:induction false} RunAppend(c: Ctrl, s: State, a: seq<Action>, b: seq<Action>)
    requires Runs(c, s, a) && Runs(c, Exec(c, s, a), b)
    ensures Runs(c, s, a + b) && Exec(c, s, a + b) == Exec(c, Exec(c, s, a), b)
    decreases a
  {
    if a == [] {
      assert a + b == b;
    } else {
      RunAppend(c, Apply(c, s, a[0]), a[1..], b);
      RunCons(c, s, a[0], a[1..] + b);
      assert a + b == [a[0]] + (a[1..] + b);
    }
  }

  /** A control block whose empty messages come from the pool. */
  predicate Pooled(c: Ctrl) { c.hasQueue && c.hasSlab && HEAD <= c.blockSize }

  /** One thread puts `k` messages into the mailbox. */
  lemma {:induction false} FillQueue(c: Ctrl, s: State, k: nat) returns (acts: seq<Action>)
    requires Pooled(c) && |s.senders| > 0 && s.senders[0].Ready?
    requires k <= |s.store.free| && |s.store.queue| + k <= c.depth
    ensures Runs(c, s, acts)
    ensures var s' := Exec(c, s, acts);
            && |s'.store.free| == |s.store.free| - k && |s'.store.queue| == |s.store.queue| + k
            && s'.senders == s.senders && s'.consumer == s.consumer && (s.store.msgBit || k > 0 ==> s'.store.msgBit)
    decreases k
  {
    if k == 0 {
      acts := [];
    } else {
      var i :| i in s.store.free;
      var m, got := Msg(0, 0, []), Some(Slab(i));
      var now := SendActions(c, s.store, 0, m, true, got);
      UninterruptedSend(c, s, 0, m, true, got);
      var rest := FillQueue(c, Exec(c, s, now), k - 1);
      RunAppend(c, s, now, rest);
      acts := now + rest;
    }
  }

  /** Senders 0 .. k-1 each allocate a block and are preempted holding it. */
  lemma {:induction false} HoldBlocks(c: Ctrl, s: State, k: nat) returns (acts: seq<Action>)
    requires Pooled(c) && k <= |s.store.free| && k <= |s.senders|
    requires forall j :: 0 <= j < |s.senders| ==> s.senders[j].Ready?
    ensures Runs(c, s, acts)
    ensures var s' := Exec(c, s, acts);
            && |s'.store.free| == |s.store.free| - k && s'.store.queue == s.store.queue && |s'.senders| == |s.senders|
            && (forall j :: 0 <= j < k ==> s'.senders[j].Holding?)
            && (forall j :: k <= j < |s'.senders| ==> s'.senders[j].Ready?)
    decreases k
  {
    if k == 0 {
      acts := [];
    } else {
      var before := HoldBlocks(c, s, k - 1);
      var s1 := Exec(c, s, before);
      var i :| i in s1.store.free;
      var a := Alloc(k - 1, Msg(0, 0, []), true, Some(Slab(i)));
      RunCons(c, s1, a, []);
      RunAppend(c, s, before, [a]);
      acts := before + [a];
    }
  }

  lemma {:induction false} HoldersCount(ss: seq<Sender>, k: nat)
    requires k <= |ss|
    requires forall j :: 0 <= j < k ==> ss[j].Holding?
    requires forall j :: k <= j < |ss| ==> ss[j].Ready?
    ensures Holders(ss) == k
  {
    if ss == [] {
    } else {
      HoldersCount(ss[1..], if k == 0 then 0 else k - 1);
    }
  }

  /**
   * The bound is tight: for every number h of other senders that the pool leaves room for, some run ends
   * with the pool empty, h senders holding blocks, another about to allocate, and exactly
   * msgq_depth + 1 - h messages in the mailbox.
   */
  lemma SizingIsTight(c: Ctrl, h: nat) returns (acts: seq<Action>)
    requires Pooled(c) && c.slabNum == c.depth + 2 && c.depth > 0 && 0 < h <= c.depth + 1
    ensures Runs(c, Start(c, h + 1), acts)
    ensures var s := Exec(c, Start(c, h + 1), acts);
            && s.store.free == {} && |s.senders| == h + 1 && Holders(s.senders) == h && s.senders[h].Ready?
            && |s.store.queue| == c.depth + 1 - h
  {
    var s0 := Start(c, h + 1);
    var one := FillQueue(c, s0, 1);
    var s1 := Exec(c, s0, one);
    var s2 := Apply(c, s1, EnterLoop);
    var s3 := Apply(c, s2, Wake);
    var s4 := Apply(c, s3, Recv);
    RunCons(c, s3, Recv, []);
    RunCons(c, s2, Wake, [Recv]);
    RunCons(c, s1, EnterLoop, [Wake, Recv]);
    var taken := [EnterLoop] + ([Wake] + [Recv]);
    assert [Wake, Recv] == [Wake] + [Recv];
    RunAppend(c, s0, one, taken);
    var more := FillQueue(c, s4, c.depth + 1 - h);
    RunAppend(c, s0, one + taken, more);
    var s5 := Exec(c, s4, more);
    var holds := HoldBlocks(c, s5, h);
    RunAppend(c, s0, (one + taken) + more, holds);
    acts := ((one + taken) + more) + holds;
    HoldersCount(Exec(c, s0, acts).senders, h);
  }
}
