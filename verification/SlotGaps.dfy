/**
 * The two gaps of the delayed-event code: a send claims its slot under the mutex and pushes the entry
 * after releasing it; a fire runs the hook before it takes the mutex to release the slot. Whatever
 * atomic operations fall into such a gap, its second half is sound exactly when the slot still belongs
 * to the request that opened it.
 */
module SlotGaps {
  import opened Types
  import opened DelayedSlots

  // ---- The halves ----

  /** The first half of a fire: the entry leaves the event loop and the hook runs. */
  function FireBegin(p: Pool, k: nat, hook: bool): Pool
    requires k < |p.slots| && p.pending[k] > 0
  {
    p.(pending := p.pending - multiset{k},
       fired := p.fired + [Shot(p.slots[k].ticket, p.slots[k].task, p.slots[k].id, hook)])
  }

  /** The second half, under the mutex: the slot is released, whoever holds it by then. */
  function FireEnd(p: Pool, k: nat): Pool
    requires k < |p.slots|
  {
    p.(slots := p.slots[k := p.slots[k].(inUse := false)])
  }

  lemma HalvesMakeFire(p: Pool, k: nat, hook: bool)
    requires k < |p.slots| && p.pending[k] > 0
    ensures FireEnd(FireBegin(p, k, hook), k) == Fire(p, k, hook)
  {
  }

  /** The first half of a send that found slot k free: the slot is claimed under the mutex. */
  function SendClaim(p: Pool, k: nat, task: TaskId, id: U32): Pool
    requires k < |p.slots|
  {
    p.(slots := p.slots[k := Slot(task, id, true, |p.accepted|)], accepted := p.accepted + [Request(task, id)])
  }

  /** The second half: the entry is pushed, whatever became of the slot. */
  function SendPush(p: Pool, k: nat): Pool { p.(pending := p.pending + multiset{k}) }

  lemma HalvesMakeSend(p: Pool, task: TaskId, id: U32)
    ensures var k := FirstFree(p.slots, 0);
            k < |p.slots| ==> (SendPush(SendClaim(p, k, task, id), k), OK) == Send(p, task, id, true)
  {
  }

  // ---- What holds while a gap is open ----

  /** The slot still belongs to the request. */
  predicate Holds(s: Slot, ticket: nat) { s.inUse && s.ticket == ticket }

  /** Slots and entries agree, except that the slot of the gap has no entry while the request holds it. */
  predicate Paired(p: Pool, k: nat, ticket: nat)
    requires k < |p.slots|
  {
    && (forall j :: 0 <= j < |p.slots| && j != k ==> p.pending[j] == if p.slots[j].inUse then 1 else 0)
    && p.pending[k] == (if p.slots[k].inUse && !Holds(p.slots[k], ticket) then 1 else 0)
    && (forall j :: j in p.pending ==> j < |p.slots|)
  }

  /** No other slot belongs to the request. */
  predicate Unique(p: Pool, k: nat, ticket: nat) {
    forall j :: 0 <= j < |p.slots| && j != k ==> !Holds(p.slots[j], ticket)
  }

  /** The request has fired `shots` times, and besides still waits in its slot or was cancelled, once. */
  predicate InGap(p: Pool, k: nat, ticket: nat, shots: nat)
    requires k < |p.slots|
  {
    && Shots(p.fired, ticket) == shots
    && Waiting(p.slots, ticket) == (if Holds(p.slots[k], ticket) then 1 else 0)
    && Waiting(p.slots, ticket) + Cancels(p.cancelled, ticket) == 1
  }

  predicate Counted(p: Pool, extra: nat) { |p.accepted| + extra == |p.fired| + |p.cancelled| + InUse(p.slots) }

  /** A gap of the request `ticket` at slot k; `shots` is 1 in a half-done fire and 0 in a half-done send. */
  ghost predicate Gap(p: Pool, k: nat, ticket: nat, shots: nat) {
    && k < |p.slots| && ticket < |p.accepted|
    && Paired(p, k, ticket) && Unique(p, k, ticket) && Faithful(p) && Counted(p, shots) && InGap(p, k, ticket, shots)
    && (forall t :: t != ticket ==> OneFate(p, t))
  }

  lemma PairedStep(p: Pool, a: Action, k: nat, ticket: nat)
    requires k < |p.slots| && ticket < |p.accepted| && Paired(p, k, ticket) && Unique(p, k, ticket) && Enabled(p, a)
    ensures Paired(Apply(p, a), k, ticket)
  {
  }

  lemma UniqueStep(p: Pool, a: Action, k: nat, ticket: nat)
    requires k < |p.slots| && ticket < |p.accepted| && Unique(p, k, ticket) && Enabled(p, a)
    ensures Unique(Apply(p, a), k, ticket)
  {
  }

  /** An entry that fires belongs to a slot in use, and not to the request of the gap. */
  lemma FiresOther(p: Pool, a: Action, k: nat, ticket: nat)
    requires k < |p.slots| && Paired(p, k, ticket) && Unique(p, k, ticket) && Enabled(p, a) && a.DoFire?
    ensures p.slots[a.k].inUse && p.slots[a.k].ticket != ticket
  {
  }

  lemma GapFaithful(p: Pool, a: Action, k: nat, ticket: nat)
    requires k < |p.slots| && Paired(p, k, ticket) && Unique(p, k, ticket) && Enabled(p, a) && Faithful(p)
    ensures Faithful(Apply(p, a))
  {
    if a.DoFire? { FiresOther(p, a, k, ticket); }
  }

  lemma GapCount(p: Pool, a: Action, k: nat, ticket: nat, extra: nat)
    requires k < |p.slots| && Paired(p, k, ticket) && Unique(p, k, ticket) && Enabled(p, a) && Counted(p, extra)
    ensures Counted(Apply(p, a), extra)
  {
    var p' := Apply(p, a);
    match a
    case DoSend(task, id, hook) =>
      var j := FirstFree(p.slots, 0);
      if hook && j < |p.slots| { InUseUpdate(p.slots, j, p'.slots[j]); }
    case DoFire(j, _) =>
      FiresOther(p, a, k, ticket);
      InUseUpdate(p.slots, j, p'.slots[j]);
    case DoCancel(task, id) =>
      var j := FirstWaiting(p.slots, task, id, 0);
      if j < |p.slots| { InUseUpdate(p.slots, j, p'.slots[j]); }
  }

  lemma OtherFate(p: Pool, a: Action, k: nat, ticket: nat, t: nat)
    requires k < |p.slots| && Paired(p, k, ticket) && Unique(p, k, ticket) && Enabled(p, a) && OneFate(p, t)
    ensures OneFate(Apply(p, a), t)
  {
    hide OneFate;
    match a
    case DoSend(task, id, hook) => if hook { FateSend(p, task, id, t); }
    case DoFire(j, hook) =>
      FiresOther(p, a, k, ticket);
      FateFire(p, j, hook, t);
    case DoCancel(task, id) => FateCancel(p, task, id, t);
  }

  lemma OwnFate(p: Pool, a: Action, k: nat, ticket: nat, shots: nat)
    requires k < |p.slots| && ticket < |p.accepted| && Paired(p, k, ticket) && Unique(p, k, ticket) && Enabled(p, a)
    requires InGap(p, k, ticket, shots)
    ensures InGap(Apply(p, a), k, ticket, shots)
  {
    match a
    case DoSend(task, id, hook) => if hook { OwnFateSend(p, task, id, k, ticket, shots); }
    case DoFire(j, hook) =>
      FiresOther(p, a, k, ticket);
      OwnFateFire(p, j, hook, k, ticket, shots);
    case DoCancel(task, id) => OwnFateCancel(p, task, id, k, ticket, shots);
  }

  lemma OwnFateSend(p: Pool, task: TaskId, id: U32, k: nat, ticket: nat, shots: nat)
    requires k < |p.slots| && ticket < |p.accepted| && InGap(p, k, ticket, shots)
    ensures InGap(Send(p, task, id, true).0, k, ticket, shots)
  {
    var j := FirstFree(p.slots, 0);
    if j < |p.slots| { WaitingUpdate(p.slots, j, Slot(task, id, true, |p.accepted|), ticket); }
  }

  lemma OwnFateFire(p: Pool, j: nat, hook: bool, k: nat, ticket: nat, shots: nat)
    requires k < |p.slots| && j < |p.slots| && p.pending[j] > 0 && !Holds(p.slots[j], ticket)
             && p.slots[j].ticket != ticket
    requires InGap(p, k, ticket, shots)
    ensures InGap(Fire(p, j, hook), k, ticket, shots)
  {
    var p' := Fire(p, j, hook);
    WaitingUpdate(p.slots, j, p'.slots[j], ticket);
    assert p'.fired[..|p.fired|] == p.fired;
  }

  lemma OwnFateCancel(p: Pool, task: TaskId, id: U32, k: nat, ticket: nat, shots: nat)
    requires k < |p.slots| && Unique(p, k, ticket) && InGap(p, k, ticket, shots)
    ensures InGap(Cancel(p, task, id).0, k, ticket, shots)
  {
    hide Waiting, Shots;
    var p' := Cancel(p, task, id).0;
    var j := FirstWaiting(p.slots, task, id, 0);
    if j < |p.slots| {
      WaitingUpdate(p.slots, j, p'.slots[j], ticket);
      assert p'.cancelled[..|p.cancelled|] == p.cancelled;
    }
  }

  lemma GapStep(p: Pool, a: Action, k: nat, ticket: nat, shots: nat)
    requires Gap(p, k, ticket, shots) && Enabled(p, a)
    ensures Gap(Apply(p, a), k, ticket, shots)
  {
    hide Paired, Unique, Faithful, Counted, InGap, OneFate, Apply, Enabled;
    KeepsSize(p, a);
    PairedStep(p, a, k, ticket);
    UniqueStep(p, a, k, ticket);
    GapFaithful(p, a, k, ticket);
    GapCount(p, a, k, ticket, shots);
    OwnFate(p, a, k, ticket, shots);
    forall t | t != ticket ensures OneFate(Apply(p, a), t) {
      OtherFate(p, a, k, ticket, t);
    }
  }

  lemma KeepsSize(p: Pool, a: Action)
    requires Enabled(p, a)
    ensures |Apply(p, a).slots| == |p.slots| && |Apply(p, a).accepted| >= |p.accepted|
  {
  }

  lemma {:induction false} RunKeepsGap(p: Pool, acts: seq<Action>, k: nat, ticket: nat, shots: nat)
    requires Gap(p, k, ticket, shots) && Runs(p, acts)
    ensures Gap(Exec(p, acts), k, ticket, shots)
    decreases acts
  {
    hide Gap;
    if acts == [] {
    } else {
      GapStep(p, acts[0], k, ticket, shots);
      RunKeepsGap(Apply(p, acts[0]), acts[1..], k, ticket, shots);
    }
  }

  // ---- The gap of a fire ----

  lemma WaitingOnce(p: Pool, k: nat)
    requires Inv(p) && k < |p.slots| && p.slots[k].inUse
    ensures var t := p.slots[k].ticket;
            && t < |p.accepted| && Waiting(p.slots, t) == 1 && Shots(p.fired, t) == 0 && Cancels(p.cancelled, t) == 0
            && Unique(p, k, t)
  {
    var t := p.slots[k].ticket;
    SlotWaits(p.slots, k);
    assert OneFate(p, t);
    forall j | 0 <= j < |p.slots| && j != k ensures !Holds(p.slots[j], t) {
      WaitingUpdate(p.slots, k, p.slots[k].(inUse := false), t);
      var rest := p.slots[k := p.slots[k].(inUse := false)];
      if Holds(p.slots[j], t) { SlotWaits(rest, j); }
    }
  }

  lemma FireOpens(p: Pool, k: nat, hook: bool)
    requires Inv(p) && k < |p.slots| && p.pending[k] > 0
    ensures Gap(FireBegin(p, k, hook), k, p.slots[k].ticket, 1)
  {
    var ticket, q := p.slots[k].ticket, FireBegin(p, k, hook);
    WaitingOnce(p, k);
    assert q.fired[..|p.fired|] == p.fired;
    forall t | t != ticket ensures OneFate(q, t) {
      assert OneFate(p, t);
    }
  }

  lemma FireCloses(q: Pool, k: nat, ticket: nat)
    requires Gap(q, k, ticket, 1)
    ensures Inv(FireEnd(q, k)) <==> Holds(q.slots[k], ticket)
    ensures Bijection(FireEnd(q, k)) <==> !(q.slots[k].inUse && !Holds(q.slots[k], ticket))
  {
    var r := FireEnd(q, k);
    InUseUpdate(q.slots, k, r.slots[k]);
    forall t ensures Waiting(r.slots, t) == Waiting(q.slots, t) - if Holds(q.slots[k], t) then 1 else 0 {
      WaitingUpdate(q.slots, k, r.slots[k], t);
    }
    assert r.pending[k] == q.pending[k] && !r.slots[k].inUse;
    if Holds(q.slots[k], ticket) {
      forall t ensures OneFate(r, t) {
        assert t != ticket ==> OneFate(q, t);
      }
    } else {
      assert !OneFate(r, ticket);
    }
  }

  /**
   * In any run, whatever atomic operations come between the hook and the release of a fire, all that
   * `Conservation` and `FatesExclude` rest on holds again after the release exactly when the slot still
   * belongs to the fired request, which the release could test under the mutex. For the bijection alone
   * it is enough that no later request holds the slot.
   */
  lemma SplitFireVerdict(n: nat, before: seq<Action>, k: nat, hook: bool, between: seq<Action>)
    requires Runs(Start(n), before)
    requires var p := Exec(Start(n), before); k < |p.slots| && p.pending[k] > 0 && Runs(FireBegin(p, k, hook), between)
    ensures var p := Exec(Start(n), before); var q := Exec(FireBegin(p, k, hook), between);
            var ticket := p.slots[k].ticket;
            && k < |q.slots|
            && (Inv(FireEnd(q, k)) <==> Holds(q.slots[k], ticket))
            && (Bijection(FireEnd(q, k)) <==> !(q.slots[k].inUse && !Holds(q.slots[k], ticket)))
            && (q.pending[k] == 0 <==> !(q.slots[k].inUse && !Holds(q.slots[k], ticket)))
            && (Holds(q.slots[k], ticket) <==> Cancels(q.cancelled, ticket) == 0)
  {
    StartInv(n);
    RunKeepsInv(Start(n), before);
    var p := Exec(Start(n), before);
    FireOpens(p, k, hook);
    RunKeepsGap(FireBegin(p, k, hook), between, k, p.slots[k].ticket, 1);
    FireCloses(Exec(FireBegin(p, k, hook), between), k, p.slots[k].ticket);
  }

  // ---- The gap of a send ----

  lemma SendOpens(p: Pool, k: nat, task: TaskId, id: U32)
    requires Inv(p) && k < |p.slots| && !p.slots[k].inUse
    ensures Gap(SendClaim(p, k, task, id), k, |p.accepted|, 0)
  {
    var ticket, q := |p.accepted|, SendClaim(p, k, task, id);
    assert OneFate(p, ticket);
    InUseUpdate(p.slots, k, q.slots[k]);
    WaitingUpdate(p.slots, k, q.slots[k], ticket);
    forall t | t != ticket ensures OneFate(q, t) {
      assert OneFate(p, t);
      WaitingUpdate(p.slots, k, q.slots[k], t);
    }
  }

  lemma PushCloses(q: Pool, k: nat, ticket: nat)
    requires Gap(q, k, ticket, 0)
    ensures Inv(SendPush(q, k)) <==> Holds(q.slots[k], ticket)
    ensures Bijection(SendPush(q, k)) <==> Holds(q.slots[k], ticket)
  {
    var r := SendPush(q, k);
    assert r.pending[k] == q.pending[k] + 1;
    if Holds(q.slots[k], ticket) {
      assert forall j :: 0 <= j < |q.slots| && j != k ==> r.pending[j] == q.pending[j];
      forall t ensures OneFate(r, t) {
        assert t != ticket ==> OneFate(q, t);
      }
    } else {
      assert r.pending[k] != if r.slots[k].inUse then 1 else 0;
    }
  }

  /**
   * In any run, whatever atomic operations come between the claim and the push of a send, the push
   * leaves a sound pool exactly when the slot still belongs to the request, that is, when no cancel
   * took the request back in between.
   */
  lemma SplitSendVerdict(n: nat, before: seq<Action>, task: TaskId, id: U32, between: seq<Action>)
    requires Runs(Start(n), before)
    requires var p := Exec(Start(n), before); var k := FirstFree(p.slots, 0);
             k < |p.slots| && Runs(SendClaim(p, k, task, id), between)
    ensures var p := Exec(Start(n), before); var k := FirstFree(p.slots, 0);
            var q := Exec(SendClaim(p, k, task, id), between); var ticket := |p.accepted|;
            && k < |q.slots|
            && (Inv(SendPush(q, k)) <==> Holds(q.slots[k], ticket))
            && (Bijection(SendPush(q, k)) <==> Holds(q.slots[k], ticket))
            && (Holds(q.slots[k], ticket) <==> Cancels(q.cancelled, ticket) == 0)
  {
    StartInv(n);
    RunKeepsInv(Start(n), before);
    var p := Exec(Start(n), before);
    var k := FirstFree(p.slots, 0);
    SendOpens(p, k, task, id);
    RunKeepsGap(SendClaim(p, k, task, id), between, k, |p.accepted|, 0);
    PushCloses(Exec(SendClaim(p, k, task, id), between), k, |p.accepted|);
  }

  // ---- Runs in which the gaps do harm ----

  /** A cancel between the halves of a fire succeeds although the event has already fired. */
  lemma CancelAfterFire(task: TaskId)
    ensures var p1 := FireBegin(Send(Start(1), task, 5, true).0, 0, true);
            var (p2, cancel) := Cancel(p1, task, 5);
            var p3 := FireEnd(p2, 0);
            && cancel == OK && Shots(p3.fired, 0) == 1 && Cancels(p3.cancelled, 0) == 1 && Bijection(p3) && !Inv(p3)
  {
    var p0 := Send(Start(1), task, 5, true).0;
    assert p0.slots == [Slot(task, 5, true, 0)] && p0.pending == multiset{0};
    var p1 := FireBegin(p0, 0, true);
    var p2 := Cancel(p1, task, 5).0;
    assert p2.slots == [Slot(task, 5, false, 0)] && p2.pending[0] == 0;
    var p3 := FireEnd(p2, 0);
    assert p3.fired == [Shot(0, task, 5, true)] && p3.fired[..0] == [];
    assert p3.cancelled == [0] && p3.cancelled[..0] == [];
    assert !OneFate(p3, 0);
  }

  /** If then a new request claims the slot, the second half releases it under that request's pending entry. */
  lemma SplitFireBreaksBijection(task: TaskId)
    ensures var p1 := FireBegin(Send(Start(1), task, 5, true).0, 0, true);
            var (p2, cancel) := Cancel(p1, task, 5);
            var (p3, send) := Send(p2, task, 6, true);
            var p4 := FireEnd(p3, 0);
            && cancel == OK && Shots(p4.fired, 0) == 1 && Cancels(p4.cancelled, 0) == 1
            && send == OK && p4.pending[0] == 1 && !p4.slots[0].inUse && !Bijection(p4)
  {
    var p0 := Send(Start(1), task, 5, true).0;
    assert p0.slots == [Slot(task, 5, true, 0)] && p0.pending == multiset{0};
    var p1 := FireBegin(p0, 0, true);
    assert p1.pending[0] == 0;
    var p2 := Cancel(p1, task, 5).0;
    assert p2.slots == [Slot(task, 5, false, 0)] && p2.pending[0] == 0;
    var p3 := Send(p2, task, 6, true).0;
    assert p3.slots == [Slot(task, 6, true, 1)] && p3.pending[0] == 1;
    var p4 := FireEnd(p3, 0);
    assert p4.fired == [Shot(0, task, 5, true)] && p4.fired[..0] == [];
    assert p4.cancelled == [0] && p4.cancelled[..0] == [];
    assert p4.pending[0] != if p4.slots[0].inUse then 1 else 0;
  }

  /** A cancel between the halves of a send succeeds, and the request fires all the same. */
  lemma FiresAfterCancel(task: TaskId)
    ensures var p1 := SendClaim(Start(1), 0, task, 5);
            var (p2, cancel) := Cancel(p1, task, 5);
            var p3 := SendPush(p2, 0);
            && cancel == OK && p3.pending[0] == 1 && !p3.slots[0].inUse && !Bijection(p3)
            && Shots(Fire(p3, 0, true).fired, 0) == 1 && Cancels(p3.cancelled, 0) == 1
  {
    var p1 := SendClaim(Start(1), 0, task, 5);
    assert p1.slots == [Slot(task, 5, true, 0)];
    var p2 := Cancel(p1, task, 5).0;
    assert p2.slots == [Slot(task, 5, false, 0)] && p2.pending[0] == 0;
    var p3 := SendPush(p2, 0);
    assert p3.pending[0] != if p3.slots[0].inUse then 1 else 0;
    assert p3.cancelled == [0] && p3.cancelled[..0] == [];
    var p4 := Fire(p3, 0, true);
    assert p4.fired == [Shot(0, task, 5, true)] && p4.fired[..0] == [];
  }
}
