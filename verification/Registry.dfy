/**
 * The message registry object: the ROM table, its sorted RAM copy, and the pointer array that
 * references RAM entries in forward order. Dispatch, toggles and queries are tied to their meaning
 * in `RegistrySpec`.
 */
module Registry {
  import opened Types
  import opened Lists
  import opened RegistrySpec
  import opened RegistryIndex

  class Registry {
    const rom: seq<Entry>
    /** s_reg_ram, or null when it could not be allocated or the table is empty. */
    var ram: array?<Entry>
    var ramCount: nat
    /** s_reg_forward: pointers into `ram`, each as an index. */
    var fwd: array?<nat>
    var fwdCount: nat
    var ready: bool
    /** Every toggle that reached the RAM table, in order. */
    ghost var history: seq<Toggle>

    /** The entries with the flags now in force: the RAM copy, or the ROM table it could not replace. */
    ghost function Table(): seq<Entry>
      reads this, ram
    {
      if ram == null then rom else ram[..]
    }

    ghost predicate Valid()
      reads this, ram, fwd
    {
      && ramCount == |Contents(ram)|
      && fwdCount == |Contents(fwd)|
      && (ram != null ==> ready && ramCount > 0 && Built(rom, history, ram[..], Pointers()))
      && (ram == null ==> fwd == null && history == [] && (ready ==> rom == []))
    }

    ghost function Pointers(): Option<seq<nat>>
      reads this, fwd
    {
      if fwd == null then None else Some(fwd[..])
    }

    /** The pointer array is built, or no entry needs it. */
    ghost predicate ForwardReady()
      reads this, ram, fwd
    {
      fwd != null || forall e :: e in Table() ==> !CrossTask(e)
    }

    /** Before `Init` nothing is built, and every call falls back on the ROM table. */
    constructor (rom: seq<Entry>)
      ensures Valid() && this.rom == rom && ram == null && fwd == null && history == [] && !ready
    {
      this.rom := rom;
      ram, ramCount := null, 0;
      fwd, fwdCount := null, 0;
      ready := false;
      history := [];
    }

    /** _thread_msg_registry_init; the flags say whether each of the two rt_malloc calls succeeds. */
    method Init(ramOk: bool, fwdOk: bool)
      modifies this
      ensures Valid() && history == []
      ensures ram == null || fresh(ram)
      ensures fwd == null || fresh(fwd)
      ensures ready <==> rom == [] || ramOk
      ensures ram != null <==> rom != [] && ramOk
      ensures fwd != null <==> ram != null && fwdOk && exists e :: e in rom && e.sub != e.pub
      ensures ram != null ==> multiset(ram[..]) == multiset(rom) && Ascending(ram[..])
      ensures fwd != null ==> References(ram[..], fwd[..])
      ensures ram != null && fwdOk ==> ForwardReady()
    {
      ram, ramCount := null, 0;
      fwd, fwdCount := null, 0;
      ready := false;
      history := [];
      if |rom| == 0 {
        ready := true;
        return;
      }
      if !ramOk {
        return;
      }
      var table := CopyAndSort(rom);
      assert |multiset(table[..])| == |multiset(rom)|;
      SameMembers(table[..], rom);
      ReplayNothing(rom);
      ram, ramCount := table, |rom|;
      SortedOnFields(table[..]);
      var nf := CountCrossTask(table[..]);
      CountSome(table[..], CrossTask);
      if nf > 0 && fwdOk {
        var ptrs := BuildForward(table[..], nf);
        IndexOnFields(table[..], ptrs[..]);
        fwd, fwdCount := ptrs, nf;
      }
      ready := true;
    }

    /** thread_msg_subscribe_set_active. */
    method SetActive(sub: TaskId, pub: TaskId, id: U32, cb: Option<Callback>, active: bool)
      requires Valid()
      modifies this`history, ram
      ensures Valid()
      ensures history == if ram == null then old(history) else old(history) + [Toggle(sub, pub, id, cb, active)]
      ensures ram != null ==> ram[..] == SwitchAll(Toggle(sub, pub, id, cb, active), old(ram[..]))
      ensures ram != null ==> forall i :: 0 <= i < ram.Length ==>
                var r := old(ram[..])[i];
                ram[i] == if r.sub == sub && r.pub == pub && r.id == id && (cb == None || r.cb == cb)
                          then r.(active := active) else r
      ensures Pointers() == old(Pointers())
    {
      if !ready || ram == null || ramCount == 0 {
        return;
      }
      SetBuilt(sub, pub, id, cb, active);
    }

    method SetBuilt(sub: TaskId, pub: TaskId, id: U32, cb: Option<Callback>, active: bool)
      requires Valid() && ram != null
      modifies this`history, ram
      ensures history == old(history) + [Toggle(sub, pub, id, cb, active)]
      ensures Valid()
      ensures ram[..] == SwitchAll(Toggle(sub, pub, id, cb, active), old(ram[..]))
      ensures Pointers() == old(Pointers())
    {
      hide DirectSorted, ForwardIndex, Replay, SwitchAll;
      ghost var c := Toggle(sub, pub, id, cb, active);
      ghost var was, ptrs, h := ram[..], Pointers(), history;
      SetRange(ram, ramCount, sub, pub, id, cb, active);
      history := h + [c];
      assert Pointers() == ptrs;
      SwitchKeepsBuilt(rom, h, was, ptrs, c);
    }

    /** thread_msg_subscribe_is_active: some entry matches the query and every matching entry is active. */
    method IsActive(sub: TaskId, pub: TaskId, id: U32, cb: Option<Callback>) returns (b: bool)
      requires Valid()
      ensures ram == null ==> !b
      ensures ram != null ==> b == Answer(Replay(rom, history), sub, pub, id, cb)
      ensures ram != null ==>
                (b <==> (exists e ::
                           e in ram[..] && e.sub == sub && e.pub == pub && e.id == id && (cb == None || e.cb == cb))
                        && (forall e ::
                              e in ram[..] && e.sub == sub && e.pub == pub && e.id == id && (cb == None || e.cb == cb)
                              ==> e.active))
    {
      if !ready || ram == null || ramCount == 0 {
        return false;
      }
      hide Hits, Replay;
      SameMembers(ram[..], Replay(rom, history));
      var lo, hi := EqualRangeDirect(ram, ramCount, sub, pub, id);
      b := AllActive(ram, lo, hi, sub, pub, id, cb);
      AnswerOnFields(ram[..], sub, pub, id, cb);
    }

    /** thread_msg_registry_dispatch_message. */
    method DispatchMessage(tasks: Tasks, t: TaskId, m: Msg) returns (handled: bool, events: seq<Event>)
      requires Valid()
      ensures events == if ready then Indexed(tasks, t, m, Contents(ram), Contents(fwd)) else Scan(tasks, t, m, rom, {})
      ensures handled <==> exists e :: e in Table() && Fires(t, m, e)
      ensures !ready || ForwardReady() ==> Delivered(tasks, t, m, Table(), handled, events)
      ensures Delivered(tasks, t, m, Table(), handled, events)
         <==> !ready || fwd != null || Targets(tasks, t, m, Table()) == {}
      ensures Performs(tasks, t, m, Table(), !ready || fwd != null, handled, events)
    {
      var forwarded := new bool[tasks.mux](_ => false);
      if !ready {
        handled, events := DispatchLinear(tasks, t, m, rom, forwarded);
        ScanDelivers(tasks, t, m, rom);
        return;
      }
      handled, events := DispatchIndexed(tasks, t, m, ram, ramCount, fwd, fwdCount, forwarded);
      assert Table() == Contents(ram);
      IndexedVerdict(tasks, t, m, Contents(ram), Contents(fwd), fwd != null, handled);
    }

    /** thread_msg_registry_dispatch_event: at most one callback runs. */
    method DispatchEvent(t: TaskId, ev: U32) returns (b: bool, ran: Option<Callback>)
      requires Valid()
      ensures ran == FirstCallback(t, ev, Table()) && b == ran.Some?
      ensures forall i :: HandlesFirst(t, ev, Table(), i) ==> ran == Table()[i].cb
      ensures !b <==> forall e :: e in Table() && e.sub == t && e.pub == t && e.id == ev && e.cb != None ==> !e.active
    {
      if ready && ram != null {
        ran := EventScan(t, ev, ram);
      } else {
        ran := RomEventScan(t, ev, rom);
      }
      b := ran.Some?;
      hide HandlesFirst, FirstCallback;
      FirstCallbackOnFields(t, ev, Table());
    }
  }

  /** The ROM loop of event dispatch. */
  method RomEventScan(t: TaskId, ev: U32, rom: seq<Entry>) returns (ran: Option<Callback>)
    ensures ran == FirstCallback(t, ev, rom)
  {
    for i := 0 to |rom|
      invariant FirstCallback(t, ev, rom[i..]) == FirstCallback(t, ev, rom)
    {
      var it := rom[i];
      FirstCallbackNext(t, ev, rom, i);
      if it.sub == t && it.pub == t && it.id == ev && it.cb.Some? && it.active {
        return it.cb;
      }
    }
    return None;
  }

  /** The RAM loop of event dispatch. */
  method EventScan(t: TaskId, ev: U32, ram: array<Entry>) returns (ran: Option<Callback>)
    ensures ran == FirstCallback(t, ev, ram[..])
  {
    ghost var rows := ram[..];
    for i := 0 to ram.Length
      invariant FirstCallback(t, ev, rows[i..]) == FirstCallback(t, ev, rows)
    {
      var re := ram[i];
      FirstCallbackNext(t, ev, rows, i);
      if re.sub == t && re.pub == t && re.id == ev && re.cb.Some? && re.active {
        return re.cb;
      }
    }
    return None;
  }

  lemma FirstCallbackNext(t: TaskId, ev: U32, es: seq<Entry>, i: nat)
    requires i < |es|
    ensures FirstCallback(t, ev, es[i..])
         == if EventFires(t, ev, es[i]) then es[i].cb else FirstCallback(t, ev, es[i + 1..])
  {
    assert es[i..][0] == es[i] && es[i..][1..] == es[i + 1..];
  }

  /** _thread_msg_registry_dispatch_linear, with `forwarded[]` as the caller's array. */
  method DispatchLinear(tasks: Tasks, t: TaskId, m: Msg, rom: seq<Entry>, forwarded: array<bool>)
    returns (handled: bool, events: seq<Event>)
    requires forwarded.Length == tasks.mux
    requires forall u :: 0 <= u < forwarded.Length ==> !forwarded[u]
    modifies forwarded
    ensures events == Scan(tasks, t, m, rom, {})
    ensures handled <==> exists e :: e in rom && Fires(t, m, e)
    ensures Performs(tasks, t, m, rom, true, handled, events)
  {
    hide Performs;
    handled, events := false, [];
    ghost var done: set<TaskId> := {};
    for i := 0 to |rom|
      invariant Marks(forwarded, done)
      invariant Scan(tasks, t, m, rom, {}) == events + Scan(tasks, t, m, rom[i..], done)
      invariant !handled ==> forall k :: 0 <= k < i ==> !Fires(t, m, rom[k])
      invariant handled ==> exists e :: e in rom && Fires(t, m, e)
    {
      var it := rom[i];
      ScanNext(tasks, t, m, rom, i, done, events);
      if it.id != m.id {
        continue;
      }
      if LinearForward(tasks, t, m, it, forwarded, done) {
        events := events + [Forward(it.sub, m)];
        forwarded[it.sub] := true;
        done := done + {it.sub};
      }
      if it.sub == t && it.pub == m.publisher && it.cb.Some? && it.active {
        assert it in rom;
        events := events + [Call(it.cb.value, m)];
        handled := true;
      }
    }
    ScanOnFields(tasks, t, m, rom, handled);
  }

  lemma ScanOnFields(tasks: Tasks, t: TaskId, m: Msg, rom: seq<Entry>, handled: bool)
    requires handled <==> exists e :: e in rom && Fires(t, m, e)
    ensures Performs(tasks, t, m, rom, true, handled, Scan(tasks, t, m, rom, {}))
  {
    ScanDelivers(tasks, t, m, rom);
    DeliveredOnFields(tasks, t, m, rom, handled, Scan(tasks, t, m, rom, {}));
  }

  /** The forward condition of the linear loop, over `forwarded[]`. */
  predicate LinearForward(tasks: Tasks, t: TaskId, m: Msg, it: Entry, forwarded: array<bool>, ghost done: set<TaskId>)
    requires forwarded.Length == tasks.mux && Marks(forwarded, done)
    reads forwarded
    ensures it.id == m.id ==>
              (LinearForward(tasks, t, m, it, forwarded, done) <==> Wants(tasks, t, m, it) && it.sub !in done)
  {
    it.sub != t && it.pub == t && m.publisher == t && it.active && it.sub < tasks.mux
    && tasks.Known(it.sub) && !forwarded[it.sub]
  }

  /** One turn of the linear loop: `acc` is what the loop did so far. */
  lemma ScanNext(tasks: Tasks, t: TaskId, m: Msg, es: seq<Entry>, i: nat, done: set<TaskId>, acc: seq<Event>)
    requires i < |es|
    ensures var copy := Wants(tasks, t, m, es[i]) && es[i].sub !in done;
            var acc1 := if copy then acc + [Forward(es[i].sub, m)] else acc;
            var acc2 := if Fires(t, m, es[i]) then acc1 + [Call(es[i].cb.value, m)] else acc1;
            acc + Scan(tasks, t, m, es[i..], done)
            == acc2 + Scan(tasks, t, m, es[i + 1..], if copy then done + {es[i].sub} else done)
  {
    assert es[i..][0] == es[i] && es[i..][1..] == es[i + 1..];
  }

  lemma ForwardPassNext(tasks: Tasks, t: TaskId, m: Msg, es: seq<Entry>, i: nat, done: set<TaskId>, acc: seq<Event>)
    requires i < |es|
    ensures var copy := Wants(tasks, t, m, es[i]) && es[i].sub !in done;
            acc + ForwardPass(tasks, t, m, es[i..], done)
            == (if copy then acc + [Forward(es[i].sub, m)] else acc)
               + ForwardPass(tasks, t, m, es[i + 1..], if copy then done + {es[i].sub} else done)
  {
    assert es[i..][0] == es[i] && es[i..][1..] == es[i + 1..];
  }

  /** The boolean array `forwarded[]` represents the set `done`. */
  ghost predicate Marks(forwarded: array<bool>, done: set<TaskId>)
    reads forwarded
  {
    && (forall u: TaskId :: u < forwarded.Length ==> (forwarded[u] <==> u in done))
    && (forall u :: u in done ==> u < forwarded.Length)
  }

  /** The indexed path: both ranges by binary search, the forward loop, then the callback loop. */
  method DispatchIndexed(tasks: Tasks, t: TaskId, m: Msg, ram: array?<Entry>, n: nat, fwd: array?<nat>, nf: nat,
                         forwarded: array<bool>)
    returns (handled: bool, events: seq<Event>)
    requires n == |Contents(ram)| && nf == |Contents(fwd)| && DirectSorted(Contents(ram))
    requires fwd != null ==> ram != null && ForwardIndex(ram[..], fwd[..])
    requires forwarded.Length == tasks.mux
    requires forall u :: 0 <= u < forwarded.Length ==> !forwarded[u]
    modifies forwarded
    ensures events == Indexed(tasks, t, m, Contents(ram), Contents(fwd))
    ensures handled <==> exists e :: e in Contents(ram) && Fires(t, m, e)
    ensures Performs(tasks, t, m, Contents(ram), fwd != null, handled, events)
  {
    hide Performs, Indexed, ForwardPass, Calls, Fires, TripleRows, DirectSorted;
    ghost var rows, ptrs := Contents(ram), Contents(fwd);
    var dLo, dHi := EqualRangeDirect(ram, n, t, m.publisher, m.id);
    var copies: seq<Event> := [];
    if fwd != null && nf > 0 && t == m.publisher {
      copies := ForwardLoop(tasks, t, m, ram, fwd, forwarded);
    }
    assert Contents(ram) == rows;
    var calls: seq<Event>;
    handled, calls := CallLoop(t, m, ram, dLo, dHi, rows[dLo..dHi]);
    events := copies + calls;
    IndexedParts(tasks, t, m, rows, ptrs, copies, calls);
    IndexedOnFields(tasks, t, m, rows, ptrs, fwd != null, handled);
  }

  lemma IndexedParts(tasks: Tasks, t: TaskId, m: Msg, ram: seq<Entry>, fwd: seq<nat>, copies: seq<Event>,
                     calls: seq<Event>)
    requires copies == if fwd != [] && t == m.publisher
                       then ForwardPass(tasks, t, m, Rows(ram, PairPointers(ram, fwd, t, m.id)), {}) else []
    requires calls == Calls(t, m, TripleRows(ram, t, m.publisher, m.id))
    ensures copies + calls == Indexed(tasks, t, m, ram, fwd)
    ensures calls != [] <==> exists e :: e in ram && Fires(t, m, e)
  {
    if fwd == [] { assert Rows(ram, PairPointers(ram, fwd, t, m.id)) == []; }
    CallsOfFilter(t, m, ram);
    CallsEmpty(t, m, ram);
  }

  lemma IndexedOnFields(tasks: Tasks, t: TaskId, m: Msg, ram: seq<Entry>, fwd: seq<nat>, built: bool, handled: bool)
    requires built ==> ForwardIndex(ram, fwd)
    requires !built ==> fwd == []
    requires handled <==> exists e :: e in ram && Fires(t, m, e)
    ensures Performs(tasks, t, m, ram, built, handled, Indexed(tasks, t, m, ram, fwd))
  {
    if built {
      IndexedDelivers(tasks, t, m, ram, fwd);
      DeliveredOnFields(tasks, t, m, ram, handled, Indexed(tasks, t, m, ram, fwd));
    } else {
      UncopiedOnFields(tasks, t, m, ram, handled);
    }
  }

  /** The forward loop of the indexed path. */
  method ForwardLoop(tasks: Tasks, t: TaskId, m: Msg, ram: array<Entry>, fwd: array<nat>, forwarded: array<bool>)
    returns (events: seq<Event>)
    requires ForwardIndex(ram[..], fwd[..]) && t == m.publisher
    requires forwarded.Length == tasks.mux
    requires forall u :: 0 <= u < forwarded.Length ==> !forwarded[u]
    modifies forwarded
    ensures events == ForwardPass(tasks, t, m, Rows(ram[..], PairPointers(ram[..], fwd[..], t, m.id)), {})
  {
    hide ForwardIndex, ForwardPass, Wants;
    var fLo, fHi := EqualRangeForward(ram, fwd, fwd.Length, t, m.id);
    PointersOnPair(ram[..], fwd[..], t, m.id);
    forall j | fLo <= j < fHi ensures fwd[j] < ram.Length && OnPair(ram[fwd[j]], t, m.id) {
      assert fwd[fLo..fHi][j - fLo] == fwd[j];
    }
    events := ForwardRange(tasks, t, m, ram, fwd, fLo, fHi, forwarded, Rows(ram[..], fwd[fLo..fHi]));
  }

  method ForwardRange(tasks: Tasks, t: TaskId, m: Msg, ram: array<Entry>, fwd: array<nat>, fLo: nat, fHi: nat,
                      forwarded: array<bool>, ghost es: seq<Entry>)
    returns (events: seq<Event>)
    requires t == m.publisher && fLo <= fHi <= fwd.Length && |es| == fHi - fLo
    requires forall j :: fLo <= j < fHi ==>
               fwd[j] < ram.Length && ram[fwd[j]] == es[j - fLo] && OnPair(ram[fwd[j]], t, m.id)
    requires forwarded.Length == tasks.mux
    requires forall u :: 0 <= u < forwarded.Length ==> !forwarded[u]
    modifies forwarded
    ensures events == ForwardPass(tasks, t, m, es, {})
  {
    events := [];
    ghost var done: set<TaskId> := {};
    assert es[0..] == es;
    for j := fLo to fHi
      invariant Marks(forwarded, done)
      invariant ForwardPass(tasks, t, m, es, {}) == events + ForwardPass(tasks, t, m, es[j - fLo..], done)
    {
      var re := ram[fwd[j]];
      ForwardPassNext(tasks, t, m, es, j - fLo, done, events);
      if re.sub == t {
        continue;
      }
      if IndexedSkip(tasks, t, m, re, forwarded, done) {
        continue;
      }
      events := events + [Forward(re.sub, m)];
      forwarded[re.sub] := true;
      done := done + {re.sub};
    }
  }

  /** The skip condition of the forward loop, over `forwarded[]`. */
  predicate IndexedSkip(tasks: Tasks, t: TaskId, m: Msg, re: Entry, forwarded: array<bool>, ghost done: set<TaskId>)
    requires forwarded.Length == tasks.mux && Marks(forwarded, done)
    reads forwarded
    ensures OnPair(re, t, m.id) && m.publisher == t && re.sub != t
      ==> (IndexedSkip(tasks, t, m, re, forwarded, done) <==> !(Wants(tasks, t, m, re) && re.sub !in done))
  {
    !re.active || re.sub >= tasks.mux || !tasks.Known(re.sub) || forwarded[re.sub]
  }

  lemma CallsOfNone(t: TaskId, m: Msg)
    ensures Calls(t, m, []) == []
  {
  }

  lemma CallsNext(t: TaskId, m: Msg, es: seq<Entry>, i: nat, acc: seq<Event>)
    requires i < |es|
    ensures acc + Calls(t, m, es[i..]) == (acc + CallOf(t, m, es[i])) + Calls(t, m, es[i + 1..])
    ensures CallOf(t, m, es[i]) == [] ==> acc + Calls(t, m, es[i..]) == acc + Calls(t, m, es[i + 1..])
  {
    assert es[i..][0] == es[i] && es[i..][1..] == es[i + 1..];
  }

  /** The callback loop of the indexed path, over the rows of one triple. */
  method CallLoop(t: TaskId, m: Msg, ram: array?<Entry>, lo: nat, hi: nat, ghost rows: seq<Entry>)
    returns (handled: bool, events: seq<Event>)
    requires |rows| == hi - lo && (lo < hi ==> ram != null && hi <= ram.Length)
    requires forall i :: lo <= i < hi ==> ram[i] == rows[i - lo] && OnTriple(ram[i], t, m.publisher, m.id)
    ensures events == Calls(t, m, rows)
    ensures handled <==> events != []
  {
    handled, events := false, [];
    assert rows[0..] == rows;
    hide Calls;
    CallsOfNone(t, m);
    for i := lo to hi
      invariant events + Calls(t, m, rows[i - lo..]) == Calls(t, m, rows)
      invariant handled <==> events != []
    {
      var re := ram[i];
      CallsNext(t, m, rows, i - lo, events);
      if re.cb.Some? && re.active {
        events := events + [Call(re.cb.value, m)];
        handled := true;
      }
    }
  }

  method SetRange(ram: array<Entry>, n: nat, sub: TaskId, pub: TaskId, id: U32, cb: Option<Callback>, active: bool)
    requires n == ram.Length && DirectSorted(ram[..])
    modifies ram
    ensures ram[..] == SwitchAll(Toggle(sub, pub, id, cb, active), old(ram[..]))
  {
    var lo, hi := EqualRangeDirect(ram, n, sub, pub, id);
    SwitchRange(ram, lo, hi, cb, active, Toggle(sub, pub, id, cb, active));
  }

  /** The store loop of a toggle, over the rows of its triple. */
  method SwitchRange(ram: array<Entry>, lo: nat, hi: nat, cb: Option<Callback>, active: bool, ghost c: Toggle)
    requires lo <= hi <= ram.Length && c.cb == cb && c.active == active
    requires forall i :: 0 <= i < ram.Length ==> (OnTriple(ram[i], c.sub, c.pub, c.id) <==> lo <= i < hi)
    modifies ram
    ensures ram[..] == SwitchAll(c, old(ram[..]))
  {
    ghost var was := ram[..];
    for i := lo to hi
      invariant forall k :: 0 <= k < i ==> ram[k] == Switch(c, was[k])
      invariant forall k :: i <= k < ram.Length ==> ram[k] == was[k]
    {
      if cb.Some? && ram[i].cb != cb {
        continue;
      }
      ram[i] := ram[i].(active := active);
    }
    assert ram[..] == SwitchAll(c, was);
  }

  /** What a query answers: some entry matches it, and every matching entry is active. */
  ghost predicate Answer(tab: seq<Entry>, sub: TaskId, pub: TaskId, id: U32, cb: Option<Callback>) {
    && (exists e :: e in tab && Hits(sub, pub, id, cb, e))
    && (forall e :: e in tab && Hits(sub, pub, id, cb, e) ==> e.active)
  }

  lemma AnswerOnFields(tab: seq<Entry>, sub: TaskId, pub: TaskId, id: U32, cb: Option<Callback>)
    ensures Answer(tab, sub, pub, id, cb)
       <==> (exists e :: e in tab && e.sub == sub && e.pub == pub && e.id == id && (cb == None || e.cb == cb))
            && (forall e ::
                  e in tab && e.sub == sub && e.pub == pub && e.id == id && (cb == None || e.cb == cb) ==> e.active)
  {
    forall e ensures Hits(sub, pub, id, cb, e)
                <==> e.sub == sub && e.pub == pub && e.id == id && (cb == None || e.cb == cb)
    {
      HitsOnFields(sub, pub, id, cb, e);
    }
  }

  /** The scan loop of a query, over the rows of its triple. */
  method AllActive(ram: array<Entry>, lo: nat, hi: nat, sub: TaskId, pub: TaskId, id: U32, cb: Option<Callback>)
    returns (b: bool)
    requires lo <= hi <= ram.Length
    requires forall i :: 0 <= i < ram.Length ==> (OnTriple(ram[i], sub, pub, id) <==> lo <= i < hi)
    ensures b == Answer(ram[..], sub, pub, id, cb)
  {
    if lo >= hi {
      return false;
    }
    var any := false;
    for i := lo to hi
      invariant forall k :: 0 <= k < i && Hits(sub, pub, id, cb, ram[k]) ==> ram[k].active
      invariant any <==> exists k :: 0 <= k < i && Hits(sub, pub, id, cb, ram[k])
    {
      if cb.Some? && ram[i].cb != cb {
        continue;
      }
      any := true;
      if !ram[i].active {
        assert ram[i] in ram[..];
        return false;
      }
    }
    if any {
      ghost var k :| 0 <= k < hi && Hits(sub, pub, id, cb, ram[k]);
      assert ram[k] in ram[..];
    }
    return any;
  }

  lemma ReplayNothing(rom: seq<Entry>)
    ensures Replay(rom, []) == rom
  {
  }

  lemma PointersOnPair(ram: seq<Entry>, fwd: seq<nat>, p: TaskId, id: U32)
    requires ForwardIndex(ram, fwd)
    ensures forall j :: 0 <= j < |PairPointers(ram, fwd, p, id)| ==>
              PairPointers(ram, fwd, p, id)[j] < |ram| && OnPair(ram[PairPointers(ram, fwd, p, id)[j]], p, id)
  {
    var ptrs := PairPointers(ram, fwd, p, id);
    forall j | 0 <= j < |ptrs| ensures ptrs[j] < |ram| && OnPair(Deref(ram, ptrs[j]), p, id) {
      assert ptrs[j] in ptrs && ptrs[j] in fwd;
    }
  }

  /** When the indexed path does all a dispatch owes: always with the pointer array, otherwise when it owes no copy. */
  lemma IndexedVerdict(tasks: Tasks, t: TaskId, m: Msg, ram: seq<Entry>, fwd: seq<nat>, built: bool, handled: bool)
    requires built ==> ForwardIndex(ram, fwd)
    requires !built ==> fwd == []
    requires handled <==> exists e :: e in ram && Fires(t, m, e)
    ensures built ==> Delivered(tasks, t, m, ram, handled, Indexed(tasks, t, m, ram, fwd))
    ensures (forall e :: e in ram ==> !CrossTask(e)) ==> Targets(tasks, t, m, ram) == {}
    ensures !built ==> (Delivered(tasks, t, m, ram, handled, Indexed(tasks, t, m, ram, fwd))
            <==> Targets(tasks, t, m, ram) == {})
  {
    if built {
      IndexedDelivers(tasks, t, m, ram, fwd);
    } else {
      WithoutForwardIndex(tasks, t, m, ram, ram);
      ScanDelivers(tasks, t, m, ram);
    }
  }
}
