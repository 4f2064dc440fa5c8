/**
 * The manager's event loop: senders OR bits into one notify word, the loop takes every awaited bit at
 * once and dispatches the whole word as one event id. A word is the set of its bit positions.
 */
module ManagerEvents {
  import opened Types
  import opened RegistrySpec
  import opened Registry

  type Word = w: set<nat> | forall i :: i in w ==> i < 32

  /** THREAD_MANAGER_EVENT_WAIT_MASK: the low sixteen bits and the message bit. */
  const WAIT_MASK: Word := {0, 1, 2, 3, 4, 5, 6, 7, 8, 9, 10, 11, 12, 13, 14, 15, 30}

  // ---- Words and event ids ----

  function Pow2(n: nat): nat { if n == 0 then 1 else 2 * Pow2(n - 1) }

  /** The bits of a word from position `i` up, read as a number. */
  function Bits(w: Word, i: nat): (n: nat)
    requires i <= 32
    ensures n < Pow2(32 - i)
    decreases 32 - i
  {
    if i == 32 then 0 else (if i in w then 1 else 0) + 2 * Bits(w, i + 1)
  }

  lemma WordsFit()
    ensures Pow2(32) == 0x1_0000_0000
  {
    assert Pow2(8) == 0x100;
    assert Pow2(16) == 0x1_0000;
    assert Pow2(24) == 0x100_0000;
  }

  /** The event id that a received word stands for. */
  function Id(w: Word): U32 {
    WordsFit();
    Bits(w, 0)
  }

  lemma LowBit(w: Word, i: nat)
    requires i < 32
    ensures Bits(w, i) % 2 == (if i in w then 1 else 0) && Bits(w, i) / 2 == Bits(w, i + 1)
  {
  }

  lemma {:induction false} BitsInjective(a: Word, b: Word, i: nat)
    requires i <= 32 && Bits(a, i) == Bits(b, i)
    ensures forall k :: i <= k < 32 ==> (k in a <==> k in b)
    decreases 32 - i
  {
    hide Bits;
    if i == 32 {
    } else {
      LowBit(a, i);
      LowBit(b, i);
      BitsInjective(a, b, i + 1);
    }
  }

  /** Different words are different event ids. */
  lemma IdInjective(a: Word, b: Word)
    requires Id(a) == Id(b)
    ensures a == b
  {
    BitsInjective(a, b, 0);
  }

  lemma {:induction false} BitsOfOne(i: nat, k: nat)
    requires i <= k < 32
    ensures Bits({k}, i) == Pow2(k - i)
    decreases k - i
  {
    if i == k {
      BitsOfNone({k}, k + 1);
    } else {
      BitsOfOne(i + 1, k);
    }
  }

  lemma {:induction false} BitsOfNone(w: Word, i: nat)
    requires i <= 32 && forall k :: i <= k < 32 ==> k !in w
    ensures Bits(w, i) == 0
    decreases 32 - i
  {
    if i == 32 {
    } else {
      BitsOfNone(w, i + 1);
    }
  }

  lemma {:induction false} BitsAdd(a: Word, b: Word, i: nat)
    requires a !! b && i <= 32
    ensures Bits(a + b, i) == Bits(a, i) + Bits(b, i)
    decreases 32 - i
  {
    if i == 32 {
    } else {
      BitsAdd(a, b, i + 1);
    }
  }

  /** Bit i is the event id 2 to the power i, no bit is 0, and the ids of words without a common bit add up. */
  lemma IdIsBinary(i: nat, a: Word, b: Word)
    requires i < 32 && a !! b
    ensures Id({i}) == Pow2(i) && Id({}) == 0 && Id(a + b) == Id(a) + Id(b)
  {
    BitsOfOne(0, i);
    BitsOfNone({}, 0);
    BitsAdd(a, b, 0);
  }

  function Bit(i: nat): Word
    requires i < 32
  {
    {i}
  }

  /** The system events, as the header numbers them. */
  lemma SystemEventIds()
    ensures Id(Bit(0)) == 1 && Id(Bit(1)) == 2 && Id(Bit(2)) == 4 && Id(Bit(3)) == 8 && Id(Bit(4)) == 16
  {
    forall i | 0 <= i < 5 ensures Id(Bit(i)) == Pow2(i) {
      IdIsBinary(i, {}, {});
    }
    assert Pow2(2) == 4 && Pow2(4) == 16;
  }

  /** The lowest n bits. */
  function Low(n: nat): (w: Word)
    requires n <= 32
    ensures forall k :: k in w <==> 0 <= k < n
  {
    if n == 0 then {} else Low(n - 1) + {n - 1}
  }

  lemma {:induction false} LowIds(n: nat)
    requires n <= 32
    ensures Id(Low(n)) == Pow2(n) - 1
  {
    hide Id;
    if n == 0 {
      IdIsBinary(0, {}, {});
    } else {
      LowIds(n - 1);
      IdIsBinary(n - 1, Low(n - 1), {n - 1});
    }
  }

  /** The mask as the loop writes it. */
  lemma MaskValue()
    ensures Id(WAIT_MASK) == 0x4000_FFFF
  {
    hide Id, Low, Pow2;
    LowIds(16);
    IdIsBinary(30, Low(16), Bit(30));
    MaskPowers();
    assert WAIT_MASK == Low(16) + Bit(30);
  }

  lemma MaskPowers()
    ensures Pow2(16) == 0x1_0000 && Pow2(30) == 0x4000_0000
  {
    assert Pow2(8) == 0x100;
    assert Pow2(16) == 0x1_0000;
    assert Pow2(24) == 0x100_0000;
  }

  // ---- One receive ----

  /** The word that a batch of sends leaves in an empty event object. */
  function Merged(batch: seq<Word>): (w: Word)
    ensures forall i :: i in w <==> exists e :: e in batch && i in e
  {
    if batch == [] then {} else Merged(batch[..|batch| - 1]) + batch[|batch| - 1]
  }

  /**
   * A sent event is the one dispatched exactly when the loop waits for all its bits and nothing sent
   * with it adds another awaited bit.
   */
  lemma DispatchedAsSent(mask: Word, batch: seq<Word>, e: Word)
    requires e in batch
    ensures Id(Merged(batch) * mask) == Id(e) <==> e <= mask && forall f :: f in batch ==> f * mask <= e
  {
    if Id(Merged(batch) * mask) == Id(e) { IdInjective(Merged(batch) * mask, e); }
    if e <= mask && forall f :: f in batch ==> f * mask <= e {
      assert Merged(batch) * mask == e;
    }
  }

  /** Every event the table registers for the manager is one bit, as the system events are. */
  ghost predicate OneBitEvents(self: TaskId, tab: seq<Entry>) {
    forall e :: e in tab && e.sub == self && e.pub == self ==> exists i | 0 <= i < 32 :: e.id == Id({i})
  }

  lemma UnionIsUnhandled(self: TaskId, tab: seq<Entry>, word: Word, i: nat, j: nat)
    requires OneBitEvents(self, tab) && i in word && j in word && i != j
    ensures FirstCallback(self, Id(word), tab) == None
  {
    forall e | e in tab ensures !EventFires(self, Id(word), e) {
      if EventFires(self, Id(word), e) {
        var k :| 0 <= k < 32 && e.id == Id({k});
        IdInjective(word, {k});
      }
    }
    FirstCallbackNone(self, Id(word), tab);
  }

  /**
   * With one-bit events, a handled event keeps its handler exactly when no other awaited bit is
   * received with it; otherwise that receive runs no handler at all.
   */
  lemma CoalescedEvents(self: TaskId, tab: seq<Entry>, mask: Word, batch: seq<Word>, i: nat)
    requires OneBitEvents(self, tab) && i in mask && {i} in batch
    requires FirstCallback(self, Id({i}), tab).Some?
    ensures var ran := FirstCallback(self, Id(Merged(batch) * mask), tab);
            if forall f :: f in batch ==> f * mask <= {i} then ran == FirstCallback(self, Id({i}), tab) else ran == None
  {
    var word := Merged(batch) * mask;
    if f, j :| f in batch && j in f && j in mask && j != i {
      assert i in word && j in word && j in f * mask;
      UnionIsUnhandled(self, tab, word, i, j);
    } else {
      assert word == {i};
    }
  }

  // ---- Whole runs ----

  datatype Action = Send(ev: Word) | Turn

  /** A turn of the loop happens only when an awaited bit is pending. */
  predicate Runs(notify: Word, acts: seq<Action>)
    decreases acts
  {
    acts == []
    || match acts[0]
       case Send(ev) => Runs(notify + ev, acts[1..])
       case Turn => notify * WAIT_MASK != {} && Runs(notify - WAIT_MASK, acts[1..])
  }

  /** The words received, in order. */
  function Received(notify: Word, acts: seq<Action>): seq<Word>
    decreases acts
  {
    if acts == [] then []
    else match acts[0]
      case Send(ev) => Received(notify + ev, acts[1..])
      case Turn => [notify * WAIT_MASK] + Received(notify - WAIT_MASK, acts[1..])
  }

  /** The events sent between one receive and the next; `cur` is the batch under way. */
  function Batches(cur: seq<Word>, acts: seq<Action>): seq<seq<Word>>
    decreases acts
  {
    if acts == [] then []
    else match acts[0]
      case Send(ev) => Batches(cur + [ev], acts[1..])
      case Turn => [cur] + Batches([], acts[1..])
  }

  lemma MergedNext(cur: seq<Word>, ev: Word)
    ensures Merged(cur + [ev]) == Merged(cur) + ev
  {
    assert (cur + [ev])[..|cur|] == cur;
  }

  lemma AddBits(a: Word, b: Word, ev: Word, mask: Word)
    requires a * mask == b * mask
    ensures (a + ev) * mask == (b + ev) * mask
  {
    forall i ensures i in (a + ev) * mask <==> i in (b + ev) * mask {
      assert i in a * mask <==> i in b * mask;
    }
  }

  /** In any run each receive takes exactly the awaited bits of the events sent since the one before. */
  lemma {:induction false} ReceivesBatches(notify: Word, cur: seq<Word>, acts: seq<Action>)
    requires notify * WAIT_MASK == Merged(cur) * WAIT_MASK && Runs(notify, acts)
    ensures |Received(notify, acts)| == |Batches(cur, acts)|
    ensures forall k :: 0 <= k < |Received(notify, acts)| ==>
              Received(notify, acts)[k] == Merged(Batches(cur, acts)[k]) * WAIT_MASK
    decreases acts
  {
    if acts == [] {
    } else {
      match acts[0]
      case Send(ev) =>
        MergedNext(cur, ev);
        AddBits(notify, Merged(cur), ev, WAIT_MASK);
        ReceivesBatches(notify + ev, cur + [ev], acts[1..]);
      case Turn =>
        ReceivesBatches(notify - WAIT_MASK, [], acts[1..]);
    }
  }

  /** Every sent event of a run reaches its own handlers exactly when its batch adds no other awaited bit. */
  lemma EventsOfARun(acts: seq<Action>, k: nat, e: Word)
    requires Runs({}, acts) && k < |Batches([], acts)| && e in Batches([], acts)[k]
    ensures k < |Received({}, acts)|
    ensures Id(Received({}, acts)[k]) == Id(e)
       <==> e <= WAIT_MASK && forall f :: f in Batches([], acts)[k] ==> f * WAIT_MASK <= e
  {
    ReceivesBatches({}, [], acts);
    DispatchedAsSent(WAIT_MASK, Batches([], acts)[k], e);
  }

  /**
   * In any run, the k-th receive runs a handler exactly when some active entry with a callback is
   * registered for the union of the awaited bits sent since the receive before.
   */
  lemma HandlersOfARun(self: TaskId, tab: seq<Entry>, acts: seq<Action>, k: nat)
    requires Runs({}, acts) && k < |Batches([], acts)|
    ensures k < |Received({}, acts)|
    ensures FirstCallback(self, Id(Received({}, acts)[k]), tab).Some?
       <==> exists e :: e in tab && e.sub == self && e.pub == self && e.cb != None && e.active
                        && e.id == Id(Merged(Batches([], acts)[k]) * WAIT_MASK)
  {
    ReceivesBatches({}, [], acts);
    var word := Merged(Batches([], acts)[k]) * WAIT_MASK;
    if exists e :: e in tab && EventFires(self, Id(word), e) {
      var i := FirstFiring(self, Id(word), tab);
      assert tab[i] in tab;
    } else {
      FirstCallbackNone(self, Id(word), tab);
      forall e | e in tab && e.sub == self && e.pub == self && e.cb != None && e.active ensures e.id != Id(word) {
        assert !EventFires(self, Id(word), e);
      }
    }
  }

  lemma TwoHandlers(self: TaskId, x: U32, y: U32, z: U32)
    requires x != y && z != x && z != y
    ensures var tab := [Entry(self, self, x, Some(11), true), Entry(self, self, y, Some(12), true)];
            FirstCallback(self, x, tab) == Some(11) && FirstCallback(self, y, tab) == Some(12)
            && FirstCallback(self, z, tab) == None
  {
    var tab := [Entry(self, self, x, Some(11), true), Entry(self, self, y, Some(12), true)];
    assert tab[1..] == [tab[1]] && [tab[1]][1..] == [];
    assert FirstCallback(self, z, [tab[1]]) == None && FirstCallback(self, y, [tab[1]]) == Some(12);
  }

  lemma SendTwiceThenTurn(a: Word, b: Word)
    requires (a + b) * WAIT_MASK != {}
    ensures Runs({}, [Send(a), Send(b), Turn]) && Received({}, [Send(a), Send(b), Turn]) == [(a + b) * WAIT_MASK]
  {
    var acts := [Send(a), Send(b), Turn];
    assert acts[1..] == [Send(b), Turn] && [Send(b), Turn][1..] == [Turn] && [Turn][1..] == [];
    var none: Word := {};
    assert none + a == a;
    assert Runs(a + b, [Turn]) && Received(a + b, [Turn]) == [(a + b) * WAIT_MASK];
    assert Runs(a, [Send(b), Turn]) && Received(a, [Send(b), Turn]) == [(a + b) * WAIT_MASK];
  }

  /** Two system events received together, each with an active handler of its own: no handler runs. */
  lemma TwoEventsTogether(self: TaskId) returns (tab: seq<Entry>)
    ensures FirstCallback(self, Id({1}), tab) == Some(11) && FirstCallback(self, Id({2}), tab) == Some(12)
    ensures Runs({}, [Send({1}), Send({2}), Turn])
    ensures |Received({}, [Send({1}), Send({2}), Turn])| == 1
    ensures FirstCallback(self, Id(Received({}, [Send({1}), Send({2}), Turn])[0]), tab) == None
  {
    hide Id, FirstCallback, Runs, Received;
    var one: Word, two: Word := {1}, {2};
    var both: Word := (one + two) * WAIT_MASK;
    assert 1 in both && 2 in both;
    SendTwiceThenTurn(one, two);
    if Id(one) == Id(two) { IdInjective(one, two); }
    if Id(both) == Id(one) { IdInjective(both, one); }
    if Id(both) == Id(two) { IdInjective(both, two); }
    tab := [Entry(self, self, Id(one), Some(11), true), Entry(self, self, Id(two), Some(12), true)];
    TwoHandlers(self, Id(one), Id(two), Id(both));
  }

  /** The manager's notify event object and its loop. */
  class Manager {
    const self: TaskId
    const registry: Registry
    var notify: Word

    constructor (self: TaskId, registry: Registry)
      ensures this.self == self && this.registry == registry && notify == {}
    {
      this.self, this.registry, notify := self, registry, {};
    }

    /** thread_mgr_event_send. */
    method EventSend(ev: Word)
      modifies this
      ensures notify == old(notify) + ev
      ensures forall acts :: Received(notify, acts) == Received(old(notify), [Send(ev)] + acts)
    {
      notify := notify + ev;
      forall acts: seq<Action> ensures Received(notify, acts) == Received(old(notify), [Send(ev)] + acts) {
        assert ([Send(ev)] + acts)[1..] == acts;
      }
    }

    /** One turn of the loop, once the blocking receive has something to return. */
    method Serve() returns (recved: Word, ran: Option<Callback>)
      requires registry.Valid() && notify * WAIT_MASK != {}
      modifies this
      ensures recved == old(notify) * WAIT_MASK && notify == old(notify) - WAIT_MASK
      ensures forall acts :: [recved] + Received(notify, acts) == Received(old(notify), [Turn] + acts)
      ensures ran == FirstCallback(self, Id(recved), registry.Table())
    {
      recved, ran := notify * WAIT_MASK, None;
      notify := notify - WAIT_MASK;
      forall acts: seq<Action> ensures [recved] + Received(notify, acts) == Received(old(notify), [Turn] + acts) {
        assert ([Turn] + acts)[1..] == acts;
      }
      if recved != {} {
        var handled: bool;
        handled, ran := registry.DispatchEvent(self, Id(recved));
      }
    }
  }
}
