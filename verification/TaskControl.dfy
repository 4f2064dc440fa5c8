/**
 * The control block as the message calls change it: allocation, send, release and the drain loop,
 * each run without interruption. Their interleavings are the runs of `Mailbox`.
 */
module TaskControl {
  import opened Types
  import opened Mailbox

  class TaskControl {
    const c: Ctrl
    var free: set<nat>
    var heap: set<nat>
    var queue: seq<Packet>
    var msgBit: bool
    var exitBit: bool

    ghost function Now(): Store
      reads this
    {
      Store(free, heap, queue, msgBit)
    }

    /** Every block is in the pool or in the mailbox, once, and nothing is in a sender's hands. */
    ghost predicate Valid()
      reads this
    {
      OwnInv(c, AtRest(Now())) && |queue| <= c.depth && (!c.hasQueue ==> queue == [])
    }

    /** _thread_control_init. */
    constructor (c: Ctrl)
      ensures this.c == c && Valid()
      ensures Now() == Start(c, 0).store && !exitBit
    {
      this.c := c;
      free, heap, queue, msgBit, exitBit := PoolOf(c), {}, [], false, false;
      new;
      RestOwns(c);
    }

    /** _thread_evt_msg_malloc; `heapOk` says whether rt_malloc has memory. */
    method Malloc(len: nat, dataOk: bool, heapOk: bool) returns (blk: Option<Block>)
      modifies this`free, this`heap
      ensures Allocates(c, old(Now()), len, dataOk, blk)
      ensures Now() == if blk.Some? then TakeBlock(old(Now()), blk.value) else old(Now())
      ensures blk.Some? <==> CanAllocate(c, old(Now()), len, dataOk, heapOk)
      ensures blk.Some? <==> (len == 0 || dataOk) && c.hasQueue
                             && (if 12 + len <= c.blockSize then c.hasSlab && old(free) != {} else heapOk)
      ensures blk.Some? ==> (blk.value.Slab? <==> 12 + len <= c.blockSize)
      ensures match blk
              case None => free == old(free) && heap == old(heap)
              case Some(Slab(i)) => i in old(free) && free == old(free) - {i} && heap == old(heap)
              case Some(Heap(h)) => h !in old(heap) && free == old(free) && heap == old(heap) + {h}
    {
      if len > 0 && !dataOk {
        return None;
      }
      if !c.hasQueue {
        return None;
      }
      var need := HEAD + len;
      if need > c.blockSize {
        if !heapOk {
          return None;
        }
        var h := NewHeapBlock();
        heap := heap + {h};
        blk := Some(Heap(h));
      } else {
        if !c.hasSlab {
          return None;
        }
        if free == {} {
          return None;
        }
        var i :| i in free;
        free := free - {i};
        blk := Some(Slab(i));
      }
    }

    /** rt_malloc: memory that no live message uses. */
    method NewHeapBlock() returns (h: nat)
      ensures h !in heap
    {
      h := 0;
      var seen: set<nat> := {};
      while h in heap
        invariant seen <= heap && forall x: nat :: x in seen <==> x < h
        decreases heap - seen
      {
        seen := seen + {h};
        h := h + 1;
      }
    }

    /** thread_msg_evt_free. */
    method EvtFree(p: Packet)
      modifies this`free, this`heap
      ensures Now() == GiveBack(c, old(Now()), p)
      ensures heap == if 12 + |p.msg.payload| > c.blockSize && p.blk.Heap? then old(heap) - {p.blk.h} else old(heap)
      ensures free == if 12 + |p.msg.payload| <= c.blockSize && c.hasSlab && p.blk.Slab? then old(free) + {p.blk.i}
                      else old(free)
    {
      var need := HEAD + |p.msg.payload|;
      if need > c.blockSize {
        if p.blk.Heap? { heap := heap - {p.blk.h}; }
      } else if c.hasSlab {
        if p.blk.Slab? { free := free + {p.blk.i}; }
      }
    }

    /** _thread_evt_msg_forward, once the subscriber's control block has been found. */
    method Forward(m: Msg, dataOk: bool, heapOk: bool) returns (code: Code, blk: Option<Block>)
      requires Valid()
      modifies this`free, this`heap, this`queue, this`msgBit
      ensures Valid()
      ensures Allocates(c, old(Now()), |m.payload|, dataOk, blk) && Now() == Sent(c, old(Now()), m, blk)
      ensures code != OK ==> Now() == old(Now())
      ensures code == OK ==>
                msgBit && exists p :: queue == old(queue) + [p] && p.msg == m && Agrees(c, p.blk, |m.payload|)
      ensures code == SendCode(c, old(Now()), |m.payload|, dataOk, heapOk)
      ensures code == ENOMEM
         <==> (m.payload != [] && !dataOk) || !c.hasQueue
              || (if 12 + |m.payload| <= c.blockSize then !c.hasSlab || old(free) == {} else !heapOk)
      ensures code == EINVAL <==> code != ENOMEM && |old(queue)| >= c.depth
      ensures code == OK || code == EINVAL || code == ENOMEM
    {
      ghost var was := Now();
      blk := Malloc(|m.payload|, dataOk, heapOk);
      if blk.None? {
        return ENOMEM, blk;
      }
      TakeThenGiveBack(c, was, m, dataOk, blk);
      var cur := Packet(blk.value, m);
      if |queue| >= c.depth {
        EvtFree(cur);
        return EINVAL, blk;
      }
      queue := queue + [cur];
      msgBit := true;
      SentOwns(c, was, m, dataOk, blk);
      return OK, blk;
    }

    /** The MSG branch of `_thread_dispatch_events`: receive, process, free, until the mailbox is empty. */
    method Drain() returns (served: seq<Packet>)
      requires Valid()
      modifies this`free, this`heap, this`queue
      ensures Valid()
      ensures served == old(queue) && queue == []
      ensures free == PoolOf(c) && heap == {}
    {
      served := [];
      while c.hasQueue && queue != []
        invariant Valid() && msgBit == old(msgBit)
        invariant served + queue == old(queue)
        decreases |queue|
      {
        var p := queue[0];
        ghost var was := Now();
        queue := queue[1..];
        served := served + [p];
        EvtFree(p);
        ServedOwns(c, was);
      }
      QuietIsClean(c, AtRest(Now()));
    }
  }

  /** When an allocation for `len` bytes succeeds. */
  predicate CanAllocate(c: Ctrl, st: Store, len: nat, dataOk: bool, heapOk: bool) {
    (len == 0 || dataOk) && c.hasQueue && (if NeedsHeap(c, len) then heapOk else c.hasSlab && st.free != {})
  }

  /** What a send returns: no block is ENOMEM, a full mailbox EINVAL. */
  function SendCode(c: Ctrl, st: Store, len: nat, dataOk: bool, heapOk: bool): Code {
    if !CanAllocate(c, st, len, dataOk, heapOk) then ENOMEM else if |st.queue| >= c.depth then EINVAL else OK
  }

  /** thread_task_lookup in the slot array `s_registry`. */
  function LookUp(registry: array<TaskControl?>, id: TaskId): TaskControl?
    reads registry
  {
    if id < registry.Length then registry[id] else null
  }

  /** _thread_evt_msg_forward: the lookup, then the send; an unknown subscriber is EINVAL and nothing changes.
   * `m` is the header and payload the call passes; `dataOk` is false for a null payload pointer.
   */
  method ForwardTo(registry: array<TaskControl?>, sub: TaskId, m: Msg, dataOk: bool, heapOk: bool) returns (code: Code)
    requires LookUp(registry, sub) != null ==> LookUp(registry, sub).Valid()
    modifies if LookUp(registry, sub) == null then {} else {LookUp(registry, sub)}
    ensures var t := LookUp(registry, sub);
            if t == null then code == EINVAL
            else
              && t.Valid() && code == SendCode(t.c, old(t.Now()), |m.payload|, dataOk, heapOk)
              && (code != OK ==> t.Now() == old(t.Now()))
              && (code == OK ==>
                    t.msgBit
                    && exists p :: t.queue == old(t.queue) + [p] && p.msg == m && Agrees(t.c, p.blk, |m.payload|))
  {
    var t := LookUp(registry, sub);
    if t == null {
      return EINVAL;
    }
    var blk;
    code, blk := t.Forward(m, dataOk, heapOk);
  }

  /** The state of `Mailbox` in which only the kernel objects hold blocks. */
  ghost function AtRest(st: Store): State { State(st, false, Waiting, [Ready], |st.queue|, 0, 0) }

  /** Where the consumer is matters to ownership only while it holds a message. */
  lemma SameOwners(c: Ctrl, s: State, k: Consumer)
    requires OwnInv(c, s) && !s.consumer.Handling? && !k.Handling?
    ensures OwnInv(c, s.(consumer := k))
  {
    forall b ensures OwnedOnce(c, s.(consumer := k), b) {
      assert OwnedOnce(c, s, b);
    }
  }

  lemma RestOwns(c: Ctrl)
    ensures OwnInv(c, AtRest(Start(c, 0).store))
  {
    StartOwns(c, 1);
    SameOwners(c, Start(c, 1), Waiting);
    assert Start(c, 1).senders == [Ready];
  }

  lemma SentOwns(c: Ctrl, was: Store, m: Msg, dataOk: bool, got: Option<Block>)
    requires OwnInv(c, AtRest(was)) && Allocates(c, was, |m.payload|, dataOk, got)
    ensures OwnInv(c, AtRest(Sent(c, was, m, got)))
  {
    UninterruptedSend(c, AtRest(was), 0, m, dataOk, got);
    RunKeepsOwners(c, AtRest(was), SendActions(c, was, 0, m, dataOk, got));
  }

  lemma ServedOwns(c: Ctrl, was: Store)
    requires OwnInv(c, AtRest(was)) && was.queue != []
    ensures OwnInv(c, AtRest(GiveBack(c, was.(queue := was.queue[1..]), was.queue[0])))
  {
    var s0 := AtRest(was).(consumer := Draining(false));
    SameOwners(c, AtRest(was), Draining(false));
    OwnStep(c, s0, Recv);
    var s1 := Apply(c, s0, Recv);
    OwnStep(c, s1, Release);
    var s2 := Apply(c, s1, Release);
    SameOwners(c, s2, Waiting);
    var st := GiveBack(c, was.(queue := was.queue[1..]), was.queue[0]);
    assert st == s2.store;
    forall b ensures OwnedOnce(c, AtRest(st), b) {
      assert OwnedOnce(c, s2.(consumer := Waiting), b);
    }
  }
}
