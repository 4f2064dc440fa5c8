/**
 * The pool of delayed-event slots and the event loop entries that point at them. Claim-plus-push,
 * fire and cancel are atomic here; `SlotGaps` takes the first two apart.
 */
module DelayedSlots {
  import opened Types
  import opened Lists

  /** _delayed_evt_slot_t, with the number of the accepted request that last claimed it. */
  datatype Slot = Slot(task: TaskId, id: U32, inUse: bool, ticket: nat)

  datatype Request = Request(task: TaskId, id: U32)

  /** One run of the timer callback; `called`: the task was registered and had a dispatch hook, so the hook ran. */
  datatype Shot = Shot(ticket: nat, task: TaskId, id: U32, called: bool)

  datatype Pool = Pool(
    slots: seq<Slot>,
    pending: multiset<nat>,     // event loop entries, by the slot they point at
    accepted: seq<Request>,     // history: accepted non-zero delays; the index is the ticket
    fired: seq<Shot>,           // history: timer callbacks
    cancelled: seq<nat>)        // history: tickets of successful cancels

  // ---- The three operations ----

  function FirstFree(slots: seq<Slot>, i: nat): (k: nat)
    requires i <= |slots|
    ensures i <= k <= |slots| && (k < |slots| ==> !slots[k].inUse)
    ensures forall j :: i <= j < k ==> slots[j].inUse
    decreases |slots| - i
  {
    if i == |slots| || !slots[i].inUse then i else FirstFree(slots, i + 1)
  }

  predicate Waits(s: Slot, task: TaskId, id: U32) { s.inUse && s.task == task && s.id == id }

  function FirstWaiting(slots: seq<Slot>, task: TaskId, id: U32, i: nat): (k: nat)
    requires i <= |slots|
    ensures i <= k <= |slots| && (k < |slots| ==> Waits(slots[k], task, id))
    ensures forall j :: i <= j < k ==> !Waits(slots[j], task, id)
    decreases |slots| - i
  {
    if i == |slots| || Waits(slots[i], task, id) then i else FirstWaiting(slots, task, id, i + 1)
  }

  /** thread_evt_send_delayed_by_task_id with a non-zero delay; `hook`: the task exists and has a dispatch hook. */
  function Send(p: Pool, task: TaskId, id: U32, hook: bool): (Pool, Code) {
    if !hook then (p, EINVAL)
    else
      var k := FirstFree(p.slots, 0);
      if k == |p.slots| then (p, ENOMEM)
      else
        (p.(slots := p.slots[k := Slot(task, id, true, |p.accepted|)],
            pending := p.pending + multiset{k},
            accepted := p.accepted + [Request(task, id)]), OK)
  }

  /**
   * The event loop runs _thread_delayed_evt_loop_fire for the entry of slot k; the slot is released with or
   * without a hook.
   */
  function Fire(p: Pool, k: nat, hook: bool): Pool
    requires k < |p.slots| && p.pending[k] > 0
  {
    p.(slots := p.slots[k := p.slots[k].(inUse := false)],
       pending := p.pending - multiset{k},
       fired := p.fired + [Shot(p.slots[k].ticket, p.slots[k].task, p.slots[k].id, hook)])
  }

  /** thread_evt_cancel_delayed_by_task_id. */
  function Cancel(p: Pool, task: TaskId, id: U32): (Pool, Code) {
    var k := FirstWaiting(p.slots, task, id, 0);
    if k == |p.slots| then (p, ENOENT)
    else
      (p.(slots := p.slots[k := p.slots[k].(inUse := false)],
          pending := p.pending[k := 0],
          cancelled := p.cancelled + [p.slots[k].ticket]), OK)
  }

  datatype Action =
    | DoSend(task: TaskId, id: U32, hook: bool)
    | DoFire(k: nat, hook: bool)
    | DoCancel(task: TaskId, id: U32)

  predicate Enabled(p: Pool, a: Action) { a.DoFire? ==> a.k < |p.slots| && p.pending[a.k] > 0 }

  function Apply(p: Pool, a: Action): Pool
    requires Enabled(p, a)
  {
    match a
    case DoSend(task, id, hook) => Send(p, task, id, hook).0
    case DoFire(k, hook) => Fire(p, k, hook)
    case DoCancel(task, id) => Cancel(p, task, id).0
  }

  predicate Runs(p: Pool, acts: seq<Action>)
    decreases acts
  {
    acts == [] || (Enabled(p, acts[0]) && Runs(Apply(p, acts[0]), acts[1..]))
  }

  function Exec(p: Pool, acts: seq<Action>): Pool
    requires Runs(p, acts)
    decreases acts
  {
    if acts == [] then p else Exec(Apply(p, acts[0]), acts[1..])
  }

  /** `n` is CONFIG_THREAD_ID_MUX_NUMBER; the slots are zero-initialised. */
  function Start(n: nat): Pool { Pool(seq(n, _ => Slot(0, 0, false, 0)), multiset{}, [], [], []) }

  // ---- Conservation ----

  /** Slots in use and event loop entries are in bijection. */
  predicate Bijection(p: Pool) {
    && (forall k :: 0 <= k < |p.slots| ==> p.pending[k] == if p.slots[k].inUse then 1 else 0)
    && (forall k :: k in p.pending ==> k < |p.slots|)
  }

  function InUse(slots: seq<Slot>): nat {
    if slots == [] then 0 else (if slots[0].inUse then 1 else 0) + InUse(slots[1..])
  }

  function Waiting(slots: seq<Slot>, ticket: nat): nat {
    if slots == [] then 0
    else (if slots[0].inUse && slots[0].ticket == ticket then 1 else 0) + Waiting(slots[1..], ticket)
  }

  function Shots(fired: seq<Shot>, ticket: nat): nat {
    if fired == [] then 0
    else (if fired[|fired| - 1].ticket == ticket then 1 else 0) + Shots(fired[..|fired| - 1], ticket)
  }

  function Cancels(cancelled: seq<nat>, ticket: nat): nat {
    if cancelled == [] then 0
    else (if cancelled[|cancelled| - 1] == ticket then 1 else 0) + Cancels(cancelled[..|cancelled| - 1], ticket)
  }

  /** The request is pending, fired or cancelled: exactly one of the three, once. */
  predicate OneFate(p: Pool, ticket: nat) {
    Waiting(p.slots, ticket) + Shots(p.fired, ticket) + Cancels(p.cancelled, ticket)
        == if ticket < |p.accepted| then 1 else 0
  }

  /** A slot in use, and a shot, carry the task and id of their request. */
  predicate Faithful(p: Pool) {
    && (forall k :: 0 <= k < |p.slots| && p.slots[k].inUse ==>
          p.slots[k].ticket < |p.accepted| && p.accepted[p.slots[k].ticket] == Request(p.slots[k].task, p.slots[k].id))
    && (forall j :: 0 <= j < |p.fired| ==>
          p.fired[j].ticket < |p.accepted| && p.accepted[p.fired[j].ticket] == Request(p.fired[j].task, p.fired[j].id))
  }

  ghost predicate Inv(p: Pool) {
    && Bijection(p) && Faithful(p)
    && |p.accepted| == |p.fired| + |p.cancelled| + InUse(p.slots)
    && (forall ticket :: OneFate(p, ticket))
  }

  lemma {:induction false} InUseUpdate(slots: seq<Slot>, k: nat, s: Slot)
    requires k < |slots|
    ensures InUse(slots[k := s]) + (if slots[k].inUse then 1 else 0) == InUse(slots) + (if s.inUse then 1 else 0)
  {
    if k == 0 {
      assert slots[0 := s][1..] == slots[1..];
    } else {
      assert slots[k := s][1..] == slots[1..][k - 1 := s];
      InUseUpdate(slots[1..], k - 1, s);
    }
  }

  lemma {:induction false} WaitingUpdate(slots: seq<Slot>, k: nat, s: Slot, ticket: nat)
    requires k < |slots|
    ensures Waiting(slots[k := s], ticket) + (if slots[k].inUse && slots[k].ticket == ticket then 1 else 0)
         == Waiting(slots, ticket) + (if s.inUse && s.ticket == ticket then 1 else 0)
  {
    if k == 0 {
      assert slots[0 := s][1..] == slots[1..];
    } else {
      assert slots[k := s][1..] == slots[1..][k - 1 := s];
      WaitingUpdate(slots[1..], k - 1, s, ticket);
    }
  }

  lemma FateSend(p: Pool, task: TaskId, id: U32, ticket: nat)
    requires OneFate(p, ticket)
    ensures OneFate(Send(p, task, id, true).0, ticket)
  {
    var k := FirstFree(p.slots, 0);
    if k < |p.slots| { WaitingUpdate(p.slots, k, Slot(task, id, true, |p.accepted|), ticket); }
  }

  lemma FateFire(p: Pool, k: nat, hook: bool, ticket: nat)
    requires k < |p.slots| && p.pending[k] > 0 && p.slots[k].inUse && OneFate(p, ticket)
    ensures OneFate(Fire(p, k, hook), ticket)
  {
    var p' := Fire(p, k, hook);
    WaitingUpdate(p.slots, k, p'.slots[k], ticket);
    assert p'.fired[..|p.fired|] == p.fired;
  }

  lemma FateCancel(p: Pool, task: TaskId, id: U32, ticket: nat)
    requires OneFate(p, ticket)
    ensures OneFate(Cancel(p, task, id).0, ticket)
  {
    var p' := Cancel(p, task, id).0;
    var k := FirstWaiting(p.slots, task, id, 0);
    if k < |p.slots| {
      WaitingUpdate(p.slots, k, p'.slots[k], ticket);
      assert p'.cancelled[..|p.cancelled|] == p.cancelled;
    }
  }

  lemma FateStep(p: Pool, a: Action, ticket: nat)
    requires Enabled(p, a) && Bijection(p) && OneFate(p, ticket)
    ensures OneFate(Apply(p, a), ticket)
  {
    hide OneFate;
    match a
    case DoSend(task, id, hook) => if hook { FateSend(p, task, id, ticket); }
    case DoFire(k, hook) => FateFire(p, k, hook, ticket);
    case DoCancel(task, id) => FateCancel(p, task, id, ticket);
  }

  lemma CountStep(p: Pool, a: Action)
    requires Enabled(p, a) && Bijection(p) && |p.accepted| == |p.fired| + |p.cancelled| + InUse(p.slots)
    ensures var p' := Apply(p, a); |p'.accepted| == |p'.fired| + |p'.cancelled| + InUse(p'.slots)
  {
    var p' := Apply(p, a);
    match a
    case DoSend(task, id, hook) =>
      var k := FirstFree(p.slots, 0);
      if hook && k < |p.slots| { InUseUpdate(p.slots, k, p'.slots[k]); }
    case DoFire(k, _) => InUseUpdate(p.slots, k, p'.slots[k]);
    case DoCancel(task, id) =>
      var k := FirstWaiting(p.slots, task, id, 0);
      if k < |p.slots| { InUseUpdate(p.slots, k, p'.slots[k]); }
  }

  lemma BijectionStep(p: Pool, a: Action)
    requires Enabled(p, a) && Bijection(p)
    ensures Bijection(Apply(p, a))
  {
  }

  lemma FaithfulStep(p: Pool, a: Action)
    requires Enabled(p, a) && Bijection(p) && Faithful(p)
    ensures Faithful(Apply(p, a))
  {
    assert a.DoFire? ==> p.slots[a.k].inUse;
  }

  lemma InvStep(p: Pool, a: Action)
    requires Inv(p) && Enabled(p, a)
    ensures Inv(Apply(p, a))
  {
    BijectionStep(p, a);
    FaithfulStep(p, a);
    CountStep(p, a);
    forall ticket ensures OneFate(Apply(p, a), ticket) {
      assert OneFate(p, ticket);
      FateStep(p, a, ticket);
    }
  }

  lemma {:induction false} NoneInUse(slots: seq<Slot>, ticket: nat)
    requires forall k :: 0 <= k < |slots| ==> !slots[k].inUse
    ensures InUse(slots) == 0 && Waiting(slots, ticket) == 0
  {
    if slots == [] {
    } else {
      NoneInUse(slots[1..], ticket);
    }
  }

  lemma StartInv(n: nat)
    ensures Inv(Start(n))
  {
    forall ticket ensures OneFate(Start(n), ticket) {
      NoneInUse(Start(n).slots, ticket);
    }
    NoneInUse(Start(n).slots, 0);
  }

  lemma {:induction false} RunKeepsInv(p: Pool, acts: seq<Action>)
    requires Inv(p) && Runs(p, acts)
    ensures Inv(Exec(p, acts)) && |Exec(p, acts).slots| == |p.slots|
    decreases acts
  {
    if acts == [] {
    } else {
      InvStep(p, acts[0]);
      RunKeepsInv(Apply(p, acts[0]), acts[1..]);
    }
  }

  /** In every run the slots in use and the pending entries are in bijection, and no accepted request is lost. */
  lemma Conservation(n: nat, acts: seq<Action>)
    requires Runs(Start(n), acts)
    ensures var p := Exec(Start(n), acts);
            && Bijection(p)
            && |p.accepted| == |p.fired| + |p.cancelled| + InUse(p.slots)
  {
    StartInv(n);
    RunKeepsInv(Start(n), acts);
  }

  /** For each fire of a run, in order, whether the task lookup found a dispatch hook. */
  function Hooks(acts: seq<Action>): seq<bool> {
    if acts == [] then [] else HookOf(acts[0]) + Hooks(acts[1..])
  }

  function HookOf(a: Action): seq<bool> { if a.DoFire? then [a.hook] else [] }

  function Called(fired: seq<Shot>): seq<bool> {
    seq(|fired|, j requires 0 <= j < |fired| => fired[j].called)
  }

  lemma FireCallsHook(p: Pool, a: Action)
    requires Enabled(p, a)
    ensures Called(Apply(p, a).fired) == Called(p.fired) + HookOf(a)
  {
  }

  lemma {:induction false} RunCallsHooks(p: Pool, acts: seq<Action>)
    requires Runs(p, acts)
    ensures Called(Exec(p, acts).fired) == Called(p.fired) + Hooks(acts)
    decreases acts
  {
    hide Apply, Enabled, Called, HookOf;
    if acts == [] {
    } else {
      FireCallsHook(p, acts[0]);
      RunCallsHooks(Apply(p, acts[0]), acts[1..]);
      Regroup(Called(p.fired), HookOf(acts[0]), Hooks(acts[1..]));
    }
  }

  /**
   * A cancelled request never fires, a fired one fired once, with its own task and id, and each fire
   * runs the dispatch hook exactly when there is one.
   */
  lemma FatesExclude(n: nat, acts: seq<Action>, ticket: nat)
    requires Runs(Start(n), acts)
    ensures var p := Exec(Start(n), acts);
            && (Cancels(p.cancelled, ticket) > 0 ==> Shots(p.fired, ticket) == 0 && Waiting(p.slots, ticket) == 0)
            && Shots(p.fired, ticket) <= 1
            && (forall j :: 0 <= j < |p.fired| ==>
                  p.fired[j].ticket < |p.accepted|
                  && p.accepted[p.fired[j].ticket] == Request(p.fired[j].task, p.fired[j].id))
            && |p.fired| == |Hooks(acts)| && (forall j :: 0 <= j < |p.fired| ==> p.fired[j].called == Hooks(acts)[j])
  {
    RunCallsHooks(Start(n), acts);
    assert Called(Exec(Start(n), acts).fired) == Hooks(acts);
    StartInv(n);
    RunKeepsInv(Start(n), acts);
    assert OneFate(Exec(Start(n), acts), ticket);
  }

  lemma {:induction false} FullPool(slots: seq<Slot>)
    ensures InUse(slots) <= |slots|
    ensures InUse(slots) == |slots| <==> forall k :: 0 <= k < |slots| ==> slots[k].inUse
  {
    if slots == [] {
    } else {
      FullPool(slots[1..]);
      if slots[0].inUse && forall k :: 0 <= k < |slots[1..]| ==> slots[1..][k].inUse {
        forall k | 0 <= k < |slots| ensures slots[k].inUse {
          if k > 0 { assert slots[k] == slots[1..][k - 1]; }
        }
      }
    }
  }

  /**
   * With a dispatch hook, a request is refused exactly when all n slots are in use, that is, n requests are
   * pending.
   */
  lemma RefusedWhenFull(n: nat, acts: seq<Action>, task: TaskId, id: U32)
    requires Runs(Start(n), acts)
    ensures var p := Exec(Start(n), acts);
            && (Send(p, task, id, true).1 == ENOMEM <==> |p.accepted| - |p.fired| - |p.cancelled| == n)
            && (Send(p, task, id, true).1 == OK <==> |p.accepted| - |p.fired| - |p.cancelled| < n)
            && (Send(p, task, id, true).1 == OK ==>
                  && Send(p, task, id, true).0.accepted == p.accepted + [Request(task, id)]
                  && Waiting(Send(p, task, id, true).0.slots, |p.accepted|) == 1)
  {
    StartInv(n);
    RunKeepsInv(Start(n), acts);
    var p := Exec(Start(n), acts);
    FullPool(p.slots);
    var k := FirstFree(p.slots, 0);
    if k < |p.slots| {
      assert OneFate(p, |p.accepted|);
      WaitingUpdate(p.slots, k, Slot(task, id, true, |p.accepted|), |p.accepted|);
    }
  }

  lemma {:induction false} SlotWaits(slots: seq<Slot>, k: nat)
    requires k < |slots| && slots[k].inUse
    ensures Waiting(slots, slots[k].ticket) > 0
  {
    if k == 0 {
    } else {
      SlotWaits(slots[1..], k - 1);
    }
  }

  lemma {:induction false} WaitsSomewhere(slots: seq<Slot>, ticket: nat) returns (k: nat)
    requires Waiting(slots, ticket) > 0
    ensures k < |slots| && slots[k].inUse && slots[k].ticket == ticket
  {
    if slots[0].inUse && slots[0].ticket == ticket {
      k := 0;
    } else {
      var j := WaitsSomewhere(slots[1..], ticket);
      k := j + 1;
    }
  }

  /** A pending request of this task and id. */
  ghost predicate Cancellable(p: Pool, task: TaskId, id: U32, ticket: nat) {
    ticket < |p.accepted| && p.accepted[ticket] == Request(task, id) && Waiting(p.slots, ticket) == 1
  }

  /**
   * A cancel succeeds exactly when a request of that task and id is pending, and takes back one such request and
   * no other.
   */
  lemma CancelVerdict(n: nat, acts: seq<Action>, task: TaskId, id: U32)
    requires Runs(Start(n), acts)
    ensures var p := Exec(Start(n), acts); var (q, code) := Cancel(p, task, id);
            && (code == OK <==> exists ticket :: Cancellable(p, task, id, ticket))
            && (code != OK ==> q == p)
            && (code == OK ==>
                  && |q.cancelled| == |p.cancelled| + 1
                  && Cancellable(p, task, id, q.cancelled[|p.cancelled|])
                  && forall t :: Waiting(q.slots, t)
                                 == if t == q.cancelled[|p.cancelled|] then 0 else Waiting(p.slots, t))
  {
    StartInv(n);
    RunKeepsInv(Start(n), acts);
    CancelEffect(Exec(Start(n), acts), task, id);
  }

  lemma CancelEffect(p: Pool, task: TaskId, id: U32)
    requires Inv(p)
    ensures var (q, code) := Cancel(p, task, id);
            && (code == OK <==> exists ticket :: Cancellable(p, task, id, ticket))
            && (code != OK ==> q == p)
            && (code == OK ==>
                  && |q.cancelled| == |p.cancelled| + 1
                  && Cancellable(p, task, id, q.cancelled[|p.cancelled|])
                  && forall t :: Waiting(q.slots, t)
                                 == if t == q.cancelled[|p.cancelled|] then 0 else Waiting(p.slots, t))
  {
    var (q, code) := Cancel(p, task, id);
    var k := FirstWaiting(p.slots, task, id, 0);
    if k < |p.slots| {
      var ticket := p.slots[k].ticket;
      SlotWaits(p.slots, k);
      assert OneFate(p, ticket) && Cancellable(p, task, id, ticket);
      forall t ensures Waiting(q.slots, t) == if t == ticket then 0 else Waiting(p.slots, t) {
        WaitingUpdate(p.slots, k, q.slots[k], t);
      }
    } else if ticket :| Cancellable(p, task, id, ticket) {
      var j := WaitsSomewhere(p.slots, ticket);
      assert false;
    }
  }

  // ---- The slot table as the code keeps it ----

  /** The fields of _delayed_evt_slot_t. */
  datatype Cell = Cell(task: TaskId, id: U32, inUse: bool)

  class SlotTable {
    var cells: array<Cell>
    /** The event loop's entries, by the slot they point at. */
    var pending: multiset<nat>
    /** The ticket of the request that last claimed each slot. */
    ghost var owners: seq<nat>
    ghost var accepted: seq<Request>
    ghost var fired: seq<Shot>
    ghost var cancelled: seq<nat>

    ghost predicate Valid()
      reads this, cells
    {
      |owners| == cells.Length
    }

    ghost function Now(): Pool
      requires Valid()
      reads this, cells
    {
      Pool(Slots(cells[..], owners), pending, accepted, fired, cancelled)
    }

    constructor (n: nat)
      ensures fresh(cells) && Valid() && Now() == Start(n)
    {
      cells := new Cell[n](_ => Cell(0, 0, false));
      pending, owners, accepted, fired, cancelled := multiset{}, seq(n, _ => 0), [], [], [];
      new;
      assert Slots(cells[..], owners) == Start(n).slots;
    }

    /** On the fields: slot k, the first free one, now holds the request and has one entry more; no other changed. */
    ghost predicate Claims(k: nat, task: TaskId, id: U32, was: seq<Cell>, entries: multiset<nat>)
      reads this, cells
    {
      && k < |was| && !was[k].inUse && (forall j :: 0 <= j < k ==> was[j].inUse)
      && cells[..] == was[k := Cell(task, id, true)] && pending == entries + multiset{k}
    }

    /** On the fields: slot k, the first that waits for the request, is free and has no entry; no other changed. */
    ghost predicate Frees(k: nat, task: TaskId, id: U32, was: seq<Cell>, entries: multiset<nat>)
      reads this, cells
    {
      && k < |was| && was[k] == Cell(task, id, true) && (forall j :: 0 <= j < k ==> was[j] != Cell(task, id, true))
      && cells[..] == was[k := Cell(task, id, false)] && pending == entries[k := 0]
    }

    /** thread_evt_send_delayed_by_task_id, delay != 0; EVT_LOOP_PUSH succeeds. */
    method SendDelayed(task: TaskId, id: U32, hook: bool) returns (code: Code)
      requires Valid()
      modifies this`pending, this`owners, this`accepted, cells
      ensures Valid() && (Now(), code) == Send(old(Now()), task, id, hook)
      ensures code == EINVAL <==> !hook
      ensures code == ENOMEM <==> hook && forall j :: 0 <= j < cells.Length ==> old(cells[..])[j].inUse
      ensures code == OK || code == EINVAL || code == ENOMEM
      ensures code == OK ==> accepted == old(accepted) + [Request(task, id)]
      ensures code == OK ==> exists k :: Claims(k, task, id, old(cells[..]), old(pending))
      ensures code != OK ==> cells[..] == old(cells[..]) && pending == old(pending) && accepted == old(accepted)
    {
      ghost var was := Now();
      if !hook {
        return EINVAL;
      }
      var i := 0;
      while i < cells.Length
        invariant i <= cells.Length && Now() == was && cells[..] == old(cells[..])
        invariant forall j :: 0 <= j < i ==> cells[j].inUse
        invariant FirstFree(was.slots, i) == FirstFree(was.slots, 0)
      {
        if !cells[i].inUse {
          break;
        }
        i := i + 1;
      }
      assert FirstFree(was.slots, 0) == i;
      if i == cells.Length {
        return ENOMEM;
      }
      cells[i] := Cell(task, id, true);
      pending := pending + multiset{i};
      owners := owners[i := |accepted|];
      accepted := accepted + [Request(task, id)];
      assert Now().slots == was.slots[i := Slot(task, id, true, |was.accepted|)];
      assert Claims(i, task, id, old(cells[..]), old(pending));
      return OK;
    }

    /**
     * _thread_delayed_evt_loop_fire, called by the event loop for a pending entry; `hook` is what the task lookup
     * finds.
     */
    method LoopFire(k: nat, hook: bool)
      requires Valid() && k < cells.Length && pending[k] > 0
      modifies this`pending, this`fired, cells
      ensures Valid() && Now() == Fire(old(Now()), k, hook)
      ensures fired == old(fired) + [Shot(old(owners[k]), old(cells[k].task), old(cells[k].id), hook)]
      ensures cells[..] == old(cells[..])[k := Cell(old(cells[k].task), old(cells[k].id), false)]
      ensures pending == old(pending) - multiset{k}
    {
      ghost var was := Now();
      pending := pending - multiset{k};
      fired := fired + [Shot(owners[k], cells[k].task, cells[k].id, hook)];
      cells[k] := cells[k].(inUse := false);
      assert Now().slots == was.slots[k := was.slots[k].(inUse := false)];
    }

    /** thread_evt_cancel_delayed_by_task_id. */
    method CancelDelayed(task: TaskId, id: U32) returns (code: Code)
      requires Valid()
      modifies this`pending, this`cancelled, cells
      ensures Valid() && (Now(), code) == Cancel(old(Now()), task, id)
      ensures code == OK || code == ENOENT
      ensures code == OK <==> Cell(task, id, true) in old(cells[..])
      ensures code == OK ==> exists k :: Frees(k, task, id, old(cells[..]), old(pending))
      ensures code != OK ==> cells[..] == old(cells[..]) && pending == old(pending) && cancelled == old(cancelled)
    {
      ghost var was := Now();
      for i := 0 to cells.Length
        invariant Now() == was && cells[..] == old(cells[..])
        invariant forall j :: 0 <= j < i ==> cells[j] != Cell(task, id, true)
        invariant FirstWaiting(was.slots, task, id, i) == FirstWaiting(was.slots, task, id, 0)
      {
        if cells[i].inUse && cells[i].task == task && cells[i].id == id {
          assert FirstWaiting(was.slots, task, id, 0) == i;
          pending := pending[i := 0];
          cancelled := cancelled + [owners[i]];
          cells[i] := cells[i].(inUse := false);
          assert Now().slots == was.slots[i := was.slots[i].(inUse := false)];
          assert Frees(i, task, id, old(cells[..]), old(pending));
          return OK;
        }
      }
      return ENOENT;
    }
  }

  /** The slots with the tickets of their last owners. */
  function Slots(cells: seq<Cell>, owners: seq<nat>): seq<Slot>
    requires |cells| == |owners|
  {
    seq(|cells|, i requires 0 <= i < |cells| => Slot(cells[i].task, cells[i].id, cells[i].inUse, owners[i]))
  }
}
