/**
 * What the message registry means: the table entries, the two sort orders, what one dispatch does,
 * and how runtime toggles change the table. Everything here is a value; the class that keeps the
 * sorted table and its pointer index is in `Registry`.
 */
module RegistrySpec {
  import opened Types
  import opened Lists
  import Q = QSort

  /** thread_msg_registry_entry_t. */
  datatype Entry = Entry(sub: TaskId, pub: TaskId, id: U32, cb: Option<Callback>, active: bool)

  /** What a dispatch does to the world: a forward attempt towards a task, or a callback run. */
  datatype Event = Forward(to: TaskId, msg: Msg) | Call(cb: Callback, msg: Msg)

  /** The task registry as dispatch sees it: `thread_task_lookup(t) != NULL` is `Known(t)`. */
  datatype Tasks = Tasks(mux: U32, live: set<TaskId>) {
    predicate Known(t: TaskId) { t < mux && t in live }
  }

  // ---- Sort orders ----

  function TripleCmp(s1: TaskId, p1: TaskId, m1: U32, s2: TaskId, p2: TaskId, m2: U32): int {
    if s1 < s2 then -1
    else if s1 > s2 then 1
    else if p1 < p2 then -1
    else if p1 > p2 then 1
    else if m1 < m2 then -1
    else if m1 > m2 then 1
    else 0
  }

  function PairCmp(p1: TaskId, m1: U32, p2: TaskId, m2: U32): int {
    if p1 < p2 then -1
    else if p1 > p2 then 1
    else if m1 < m2 then -1
    else if m1 > m2 then 1
    else 0
  }

  function CmpDirect(x: Entry, y: Entry): int {
    TripleCmp(x.sub, x.pub, x.id, y.sub, y.pub, y.id)
  }

  function CmpForward(x: Entry, y: Entry): int {
    var c := PairCmp(x.pub, x.id, y.pub, y.id);
    if c != 0 then c
    else if x.sub < y.sub then -1
    else if x.sub > y.sub then 1
    else 0
  }

  predicate OnTriple(e: Entry, s: TaskId, p: TaskId, id: U32) { e.sub == s && e.pub == p && e.id == id }

  predicate OnPair(e: Entry, p: TaskId, id: U32) { e.pub == p && e.id == id }

  ghost predicate DirectSorted(ram: seq<Entry>) {
    forall i, j :: 0 <= i < j < |ram| ==> CmpDirect(ram[i], ram[j]) <= 0
  }

  /** The entries of one triple, in table order. */
  function TripleRows(ram: seq<Entry>, s: TaskId, p: TaskId, id: U32): seq<Entry> {
    Filter(ram, (e: Entry) => OnTriple(e, s, p, id))
  }

  /** The pointers to entries of one (publisher, id) pair, in index order. */
  function PairPointers(ram: seq<Entry>, fwd: seq<nat>, p: TaskId, id: U32): seq<nat> {
    Filter(fwd, (i: nat) => OnPair(Deref(ram, i), p, id))
  }

  /** A pointer `&ram[i]` is its index; a pointer past the table is never followed. */
  function Deref(ram: seq<Entry>, i: nat): Entry {
    if i < |ram| then ram[i] else Entry(0, 0, 0, None, false)
  }

  function Rows(ram: seq<Entry>, ptrs: seq<nat>): seq<Entry> {
    Map(ptrs, i => Deref(ram, i))
  }

  predicate CrossTask(e: Entry) { e.sub != e.pub }

  /** The pointer array references exactly the entries with subscriber != publisher, once each, in forward order. */
  ghost predicate ForwardIndex(ram: seq<Entry>, fwd: seq<nat>) {
    && (forall j :: 0 <= j < |fwd| ==> fwd[j] < |ram| && CrossTask(ram[fwd[j]]))
    && (forall i, j :: 0 <= i < j < |fwd| ==> fwd[i] != fwd[j])
    && (forall i :: 0 <= i < |ram| && CrossTask(ram[i]) ==> i in fwd)
    && (forall i, j :: 0 <= i < j < |fwd| ==> CmpForward(Deref(ram, fwd[i]), Deref(ram, fwd[j])) <= 0)
  }

  /** Both orders are total preorders, and equality in them means an equal key. */
  lemma OrdersAreTotal()
    ensures Q.TotalPreorder(CmpDirect) && Q.TotalPreorder(CmpForward)
    ensures forall x: Entry, y: Entry :: CmpDirect(x, y) == 0 <==> OnTriple(x, y.sub, y.pub, y.id)
    ensures forall x: Entry, y: Entry :: CmpForward(x, y) == 0 <==> OnTriple(x, y.sub, y.pub, y.id)
  {
  }

  /** (a1, b1, c1) comes no later than (a2, b2, c2). */
  predicate Lex(a1: U32, b1: U32, c1: U32, a2: U32, b2: U32, c2: U32) {
    a1 < a2 || (a1 == a2 && (b1 < b2 || (b1 == b2 && c1 <= c2)))
  }

  /** The table is in ascending order of (subscriber, publisher, id), the pointers of (publisher, id, subscriber). */
  lemma OrdersAreLexicographic(x: Entry, y: Entry)
    ensures CmpDirect(x, y) <= 0 <==> Lex(x.sub, x.pub, x.id, y.sub, y.pub, y.id)
    ensures CmpForward(x, y) <= 0 <==> Lex(x.pub, x.id, x.sub, y.pub, y.id, y.sub)
    ensures PairCmp(x.pub, x.id, y.pub, y.id) <= 0 <==> Lex(x.pub, x.id, 0, y.pub, y.id, 0)
  {
  }

  /** The forward order refines the pair order that the forward search uses. */
  lemma ForwardRefinesPair(x: Entry, y: Entry)
    requires CmpForward(x, y) <= 0
    ensures PairCmp(x.pub, x.id, y.pub, y.id) <= 0
    ensures OnPair(x, y.pub, y.id) ==> x.sub <= y.sub
  {
  }

  /** On the fields: the table in ascending order. */
  ghost predicate Ascending(ram: seq<Entry>) {
    forall i, j :: 0 <= i < j < |ram| ==> Lex(ram[i].sub, ram[i].pub, ram[i].id, ram[j].sub, ram[j].pub, ram[j].id)
  }

  /** On the fields: exactly the rows with subscriber != publisher, once each, in ascending order. */
  ghost predicate References(ram: seq<Entry>, fwd: seq<nat>) {
    && (forall j :: 0 <= j < |fwd| ==> fwd[j] < |ram| && ram[fwd[j]].sub != ram[fwd[j]].pub)
    && (forall i, j :: 0 <= i < j < |fwd| ==> fwd[i] != fwd[j])
    && (forall i :: 0 <= i < |ram| && ram[i].sub != ram[i].pub ==> i in fwd)
    && (forall i, j :: 0 <= i < j < |fwd| ==>
          Lex(ram[fwd[i]].pub, ram[fwd[i]].id, ram[fwd[i]].sub, ram[fwd[j]].pub, ram[fwd[j]].id, ram[fwd[j]].sub))
  }

  lemma SortedOnFields(ram: seq<Entry>)
    requires DirectSorted(ram)
    ensures Ascending(ram)
  {
    forall i, j | 0 <= i < j < |ram|
      ensures Lex(ram[i].sub, ram[i].pub, ram[i].id, ram[j].sub, ram[j].pub, ram[j].id)
    {
      OrdersAreLexicographic(ram[i], ram[j]);
    }
  }

  lemma IndexOnFields(ram: seq<Entry>, fwd: seq<nat>)
    requires ForwardIndex(ram, fwd)
    ensures References(ram, fwd)
  {
    forall i | 0 <= i < |ram| && ram[i].sub != ram[i].pub ensures i in fwd {
      assert CrossTask(ram[i]);
    }
    forall i, j | 0 <= i < j < |fwd|
      ensures Lex(ram[fwd[i]].pub, ram[fwd[i]].id, ram[fwd[i]].sub, ram[fwd[j]].pub, ram[fwd[j]].id, ram[fwd[j]].sub)
    {
      assert CmpForward(Deref(ram, fwd[i]), Deref(ram, fwd[j])) <= 0;
      OrdersAreLexicographic(ram[fwd[i]], ram[fwd[j]]);
    }
  }

  // ---- One dispatch ----

  /** Entry `e` asks task `t`, dispatching `m`, for a copy. */
  predicate Wants(tasks: Tasks, t: TaskId, m: Msg, e: Entry) {
    e.id == m.id && e.sub != t && e.pub == t && m.publisher == t && e.active && tasks.Known(e.sub)
  }

  /** Entry `e` runs its callback when task `t` dispatches `m`. */
  predicate Fires(t: TaskId, m: Msg, e: Entry) {
    OnTriple(e, t, m.publisher, m.id) && e.cb.Some? && e.active
  }

  /** The linear fallback: one pass in table order, forwarding at most once per task. */
  function Scan(tasks: Tasks, t: TaskId, m: Msg, es: seq<Entry>, done: set<TaskId>): seq<Event> {
    if es == [] then []
    else
      var e := es[0];
      var copy := Wants(tasks, t, m, e) && e.sub !in done;
      (if copy then [Forward(e.sub, m)] else [])
      + (if Fires(t, m, e) then [Call(e.cb.value, m)] else [])
      + Scan(tasks, t, m, es[1..], if copy then done + {e.sub} else done)
  }

  /** The forward loop of the indexed path. */
  function ForwardPass(tasks: Tasks, t: TaskId, m: Msg, es: seq<Entry>, done: set<TaskId>): seq<Event> {
    if es == [] then []
    else
      var e := es[0];
      var copy := Wants(tasks, t, m, e) && e.sub !in done;
      (if copy then [Forward(e.sub, m)] else [])
      + ForwardPass(tasks, t, m, es[1..], if copy then done + {e.sub} else done)
  }

  /** The callback loop: the callbacks of the entries that fire, in table order. */
  function Calls(t: TaskId, m: Msg, es: seq<Entry>): seq<Event> {
    if es == [] then []
    else CallOf(t, m, es[0]) + Calls(t, m, es[1..])
  }

  function CallOf(t: TaskId, m: Msg, e: Entry): seq<Event> {
    if Fires(t, m, e) then [Call(e.cb.value, m)] else []
  }

  /** The indexed path: the forwards of the (publisher, id) range, then the callbacks of the triple range. */
  function Indexed(tasks: Tasks, t: TaskId, m: Msg, ram: seq<Entry>, fwd: seq<nat>): seq<Event> {
    (if t == m.publisher
     then ForwardPass(tasks, t, m, Rows(ram, PairPointers(ram, fwd, t, m.id)), {})
     else [])
    + Calls(t, m, TripleRows(ram, t, m.publisher, m.id))
  }

  /** The tasks that are owed a copy of `m` when `t` dispatches it. */
  function Targets(tasks: Tasks, t: TaskId, m: Msg, es: seq<Entry>): set<TaskId> {
    set e | e in es && Wants(tasks, t, m, e) :: e.sub
  }

  function CopiesTo(ts: set<TaskId>, m: Msg): multiset<Event> {
    multiset(set u | u in ts :: Forward(u, m))
  }

  /** Exactly one forward per owed task, exactly the firing callbacks, nothing else; order left open. */
  ghost predicate Delivered(tasks: Tasks, t: TaskId, m: Msg, tab: seq<Entry>, handled: bool, events: seq<Event>) {
    && multiset(events) == CopiesTo(Targets(tasks, t, m, tab), m) + multiset(Calls(t, m, tab))
    && (handled <==> exists e :: e in tab && Fires(t, m, e))
  }

  lemma CopiesToOneMore(u: TaskId, ts: set<TaskId>, m: Msg)
    requires u !in ts
    ensures CopiesTo({u} + ts, m) == multiset{Forward(u, m)} + CopiesTo(ts, m)
  {
    assert (set v | v in {u} + ts :: Forward(v, m)) == {Forward(u, m)} + (set v | v in ts :: Forward(v, m));
  }

  lemma TargetsCons(tasks: Tasks, t: TaskId, m: Msg, es: seq<Entry>)
    requires es != []
    ensures Targets(tasks, t, m, es)
         == (if Wants(tasks, t, m, es[0]) then {es[0].sub} else {}) + Targets(tasks, t, m, es[1..])
  {
    assert es == [es[0]] + es[1..];
  }

  lemma {:induction false} CallsEmpty(t: TaskId, m: Msg, es: seq<Entry>)
    ensures Calls(t, m, es) != [] <==> exists e :: e in es && Fires(t, m, e)
  {
    if es == [] {
    } else {
      CallsEmpty(t, m, es[1..]);
    }
  }

  /** The forward loop copies to each owed task that was not served yet, once. */
  lemma {:induction false} ForwardPassDelivers(tasks: Tasks, t: TaskId, m: Msg, es: seq<Entry>, done: set<TaskId>)
    ensures multiset(ForwardPass(tasks, t, m, es, done)) == CopiesTo(Targets(tasks, t, m, es) - done, m)
  {
    if es == [] {
    } else {
      var e := es[0];
      var rest := Targets(tasks, t, m, es[1..]);
      TargetsCons(tasks, t, m, es);
      if Wants(tasks, t, m, e) && e.sub !in done {
        ForwardPassDelivers(tasks, t, m, es[1..], done + {e.sub});
        assert Targets(tasks, t, m, es) - done == {e.sub} + (rest - (done + {e.sub}));
        CopiesToOneMore(e.sub, rest - (done + {e.sub}), m);
      } else {
        ForwardPassDelivers(tasks, t, m, es[1..], done);
        assert Targets(tasks, t, m, es) - done == rest - done;
      }
    }
  }

  /** The linear scan is the forward loop and the callback loop run in lockstep. */
  lemma {:induction false} ScanInterleaves(tasks: Tasks, t: TaskId, m: Msg, es: seq<Entry>, done: set<TaskId>)
    ensures multiset(Scan(tasks, t, m, es, done))
         == multiset(ForwardPass(tasks, t, m, es, done)) + multiset(Calls(t, m, es))
  {
    if es == [] {
    } else {
      var copy := Wants(tasks, t, m, es[0]) && es[0].sub !in done;
      ScanInterleaves(tasks, t, m, es[1..], if copy then done + {es[0].sub} else done);
    }
  }

  /** The reference path does what a dispatch owes, for every table and message. */
  lemma ScanDelivers(tasks: Tasks, t: TaskId, m: Msg, tab: seq<Entry>)
    ensures Delivered(tasks, t, m, tab, exists e :: e in tab && Fires(t, m, e), Scan(tasks, t, m, tab, {}))
  {
    ScanInterleaves(tasks, t, m, tab, {});
    ForwardPassDelivers(tasks, t, m, tab, {});
    assert Targets(tasks, t, m, tab) - {} == Targets(tasks, t, m, tab);
  }

  lemma {:induction false} CallsOfFilter(t: TaskId, m: Msg, es: seq<Entry>)
    ensures Calls(t, m, TripleRows(es, t, m.publisher, m.id)) == Calls(t, m, es)
  {
    if es == [] {
    } else {
      CallsOfFilter(t, m, es[1..]);
    }
  }

  lemma CallsSplit(t: TaskId, m: Msg, a: seq<Entry>, b: seq<Entry>)
    ensures Calls(t, m, a + b) == Calls(t, m, a) + Calls(t, m, b)
  {
    if a == [] {
      assert a + b == b;
    } else {
      assert (a + b)[1..] == a[1..] + b;
      CallsSplit(t, m, a[1..], b);
    }
  }

  lemma CallsTakeOut(t: TaskId, m: Msg, es: seq<Entry>, i: nat)
    requires i < |es|
    ensures multiset(Calls(t, m, es)) == multiset(CallOf(t, m, es[i])) + multiset(Calls(t, m, es[..i] + es[i + 1..]))
  {
    assert es == es[..i] + es[i..] && es[i..][1..] == es[i + 1..];
    CallsSplit(t, m, es[..i], es[i..]);
    CallsSplit(t, m, es[..i], es[i + 1..]);
    assert Calls(t, m, es[i..]) == CallOf(t, m, es[i]) + Calls(t, m, es[i + 1..]);
  }

  /** Sorting the table does not change which callbacks run, only their order. */
  lemma {:induction false} CallsPermute(t: TaskId, m: Msg, a: seq<Entry>, b: seq<Entry>)
    requires multiset(a) == multiset(b)
    ensures multiset(Calls(t, m, a)) == multiset(Calls(t, m, b))
    decreases |a|
  {
    if a == [] {
      assert |multiset(b)| == 0;
    } else {
      var i := MatchFirst(a, b);
      CallsPermute(t, m, a[1..], b[..i] + b[i + 1..]);
      CallsTakeOut(t, m, b, i);
    }
  }

  lemma SameMembers(a: seq<Entry>, b: seq<Entry>)
    requires multiset(a) == multiset(b)
    ensures forall e :: e in a <==> e in b
  {
    forall e ensures e in a <==> e in b {
      assert e in multiset(a) <==> e in multiset(b);
    }
  }

  /** What a dispatch owes depends on the entries and their flags, not on their order. */
  lemma DeliveredPermutes(tasks: Tasks, t: TaskId, m: Msg, a: seq<Entry>, b: seq<Entry>, handled: bool,
                          events: seq<Event>)
    requires multiset(a) == multiset(b)
    ensures Delivered(tasks, t, m, a, handled, events) <==> Delivered(tasks, t, m, b, handled, events)
  {
    SameMembers(a, b);
    CallsPermute(t, m, a, b);
    assert Targets(tasks, t, m, a) == Targets(tasks, t, m, b);
  }

  /** A complete pointer index finds every task the table owes a copy to. */
  lemma IndexFindsTargets(tasks: Tasks, t: TaskId, m: Msg, ram: seq<Entry>, fwd: seq<nat>)
    requires ForwardIndex(ram, fwd) && m.publisher == t
    ensures Targets(tasks, t, m, Rows(ram, PairPointers(ram, fwd, t, m.id))) == Targets(tasks, t, m, ram)
  {
    var ptrs := PairPointers(ram, fwd, t, m.id);
    var es := Rows(ram, ptrs);
    forall u | u in Targets(tasks, t, m, ram) ensures u in Targets(tasks, t, m, es) {
      var e :| e in ram && Wants(tasks, t, m, e) && e.sub == u;
      var i :| 0 <= i < |ram| && ram[i] == e;
      assert CrossTask(ram[i]) && OnPair(Deref(ram, i), t, m.id) && i in ptrs;
      var j :| 0 <= j < |ptrs| && ptrs[j] == i;
      assert es[j] == e;
    }
    forall u | u in Targets(tasks, t, m, es) ensures u in Targets(tasks, t, m, ram) {
      var e :| e in es && Wants(tasks, t, m, e) && e.sub == u;
      var j :| 0 <= j < |es| && es[j] == e;
      assert ptrs[j] in fwd && ptrs[j] < |ram|;
    }
  }

  lemma NoTargetsForCopies(tasks: Tasks, t: TaskId, m: Msg, es: seq<Entry>)
    requires t != m.publisher
    ensures Targets(tasks, t, m, es) == {}
  {
  }

  /** The indexed path does what a dispatch owes, whichever sorted arrangement the sort produced. */
  lemma IndexedDelivers(tasks: Tasks, t: TaskId, m: Msg, ram: seq<Entry>, fwd: seq<nat>)
    requires ForwardIndex(ram, fwd)
    ensures Delivered(tasks, t, m, ram, exists e :: e in ram && Fires(t, m, e), Indexed(tasks, t, m, ram, fwd))
  {
    CallsOfFilter(t, m, ram);
    if t == m.publisher {
      var es := Rows(ram, PairPointers(ram, fwd, t, m.id));
      ForwardPassDelivers(tasks, t, m, es, {});
      IndexFindsTargets(tasks, t, m, ram, fwd);
      assert Targets(tasks, t, m, es) - {} == Targets(tasks, t, m, ram);
    } else {
      NoTargetsForCopies(tasks, t, m, ram);
    }
  }

  /** The indexed path is a reordering of the linear one that puts every forward first. */
  lemma IndexedRefinesLinear(tasks: Tasks, t: TaskId, m: Msg, rom: seq<Entry>, ram: seq<Entry>, fwd: seq<nat>)
    requires multiset(ram) == multiset(rom) && ForwardIndex(ram, fwd)
    ensures multiset(Indexed(tasks, t, m, ram, fwd)) == multiset(Scan(tasks, t, m, rom, {}))
    ensures forall i, j :: 0 <= i < j < |Indexed(tasks, t, m, ram, fwd)| && Indexed(tasks, t, m, ram, fwd)[j].Forward?
              ==> Indexed(tasks, t, m, ram, fwd)[i].Forward?
    ensures (exists e :: e in ram && Fires(t, m, e)) <==> (exists e :: e in rom && Fires(t, m, e))
  {
    IndexedDelivers(tasks, t, m, ram, fwd);
    SameMembers(ram, rom);
    CallsPermute(t, m, ram, rom);
    assert Targets(tasks, t, m, ram) == Targets(tasks, t, m, rom);
    ScanDelivers(tasks, t, m, rom);
    ForwardsOnly(tasks, t, m, Rows(ram, PairPointers(ram, fwd, t, m.id)), {});
    CallsOnly(t, m, TripleRows(ram, t, m.publisher, m.id));
  }

  lemma {:induction false} ForwardsOnly(tasks: Tasks, t: TaskId, m: Msg, es: seq<Entry>, done: set<TaskId>)
    ensures forall ev :: ev in ForwardPass(tasks, t, m, es, done) ==> ev.Forward? && ev.msg == m
  {
    if es == [] {
    } else {
      var copy := Wants(tasks, t, m, es[0]) && es[0].sub !in done;
      ForwardsOnly(tasks, t, m, es[1..], if copy then done + {es[0].sub} else done);
    }
  }

  lemma {:induction false} CallsOnly(t: TaskId, m: Msg, es: seq<Entry>)
    ensures forall ev :: ev in Calls(t, m, es) ==> ev.Call? && ev.msg == m
  {
    if es == [] {
    } else {
      CallsOnly(t, m, es[1..]);
    }
  }

  /**
   * If the pointer array could not be allocated the indexed path still runs, without it.
   * Then it agrees with the linear scan exactly for the messages nobody is owed a copy of.
   */
  lemma WithoutForwardIndex(tasks: Tasks, t: TaskId, m: Msg, rom: seq<Entry>, ram: seq<Entry>)
    requires multiset(ram) == multiset(rom)
    ensures multiset(Indexed(tasks, t, m, ram, [])) == multiset(Scan(tasks, t, m, rom, {}))
       <==> Targets(tasks, t, m, rom) == {}
  {
    var calls := multiset(Calls(t, m, rom));
    assert multiset(Indexed(tasks, t, m, ram, [])) == calls by {
      CallsOfFilter(t, m, ram);
      CallsPermute(t, m, ram, rom);
      assert Indexed(tasks, t, m, ram, []) == Calls(t, m, ram);
    }
    var ts := Targets(tasks, t, m, rom);
    assert multiset(Scan(tasks, t, m, rom, {})) == CopiesTo(ts, m) + calls by { ScanDelivers(tasks, t, m, rom); }
    CopiesToNobody(ts, m);
    if ts == {} {
      assert CopiesTo(ts, m) + calls == calls;
    } else {
      assert |CopiesTo(ts, m) + calls| > |calls|;
    }
  }

  /** Task 1 subscribes to message 7 of task 0: without the pointer array it gets no copy. */
  lemma CopyLostWithoutIndex(tasks: Tasks, payload: seq<bv8>)
    requires tasks.Known(1)
    ensures var tab := [Entry(1, 0, 7, None, true)]; var m := Msg(7, 0, payload);
            && Scan(tasks, 0, m, tab, {}) == [Forward(1, m)]
            && Indexed(tasks, 0, m, tab, [0]) == [Forward(1, m)]
            && Indexed(tasks, 0, m, tab, []) == []
  {
    var tab, m := [Entry(1, 0, 7, None, true)], Msg(7, 0, payload);
    assert tab[1..] == [];
    assert PairPointers(tab, [0], 0, 7) == [0] by { assert [0][1..] == []; }
    assert Rows(tab, [0]) == tab && Rows(tab, []) == [];
    assert TripleRows(tab, 0, 0, 7) == [];
    var none: seq<nat> := [];
    assert Scan(tasks, 0, m, [], {1}) == [] && ForwardPass(tasks, 0, m, [], {1}) == [] && Calls(0, m, []) == [];
    assert Wants(tasks, 0, m, tab[0]) && !Fires(0, m, tab[0]);
    assert Scan(tasks, 0, m, tab, {}) == [Forward(1, m)];
    assert ForwardPass(tasks, 0, m, tab, {}) == [Forward(1, m)];
    assert PairPointers(tab, none, 0, 7) == [];
  }

  lemma CopiesToNobody(ts: set<TaskId>, m: Msg)
    ensures ts == {} ==> CopiesTo(ts, m) == multiset{}
    ensures ts != {} ==> |CopiesTo(ts, m)| > 0
  {
    if u :| u in ts {
      assert Forward(u, m) in CopiesTo(ts, m);
    }
  }

  // ---- A dispatch, in terms of the table's fields ----

  /** A callback runs once for each active entry of the triple that names it. */
  lemma {:induction false} CallsCounted(t: TaskId, m: Msg, es: seq<Entry>, cb: Callback)
    ensures multiset(Calls(t, m, es))[Call(cb, m)]
         == Count(es, (e: Entry) => e.sub == t && e.pub == m.publisher && e.id == m.id && e.cb == Some(cb) && e.active)
  {
    if es == [] {
    } else {
      CallsCounted(t, m, es[1..], cb);
    }
  }

  lemma NoForwardIn(calls: seq<Event>, m: Msg)
    requires forall ev :: ev in calls ==> ev.Call?
    ensures forall u: TaskId :: multiset(calls)[Forward(u, m)] == 0
  {
    forall u: TaskId ensures multiset(calls)[Forward(u, m)] == 0 {
      assert Forward(u, m) !in calls;
    }
  }

  /** The callbacks of a dispatch, the tasks it copies to, and what it reports. */
  ghost predicate Performs(tasks: Tasks, t: TaskId, m: Msg, tab: seq<Entry>, copying: bool, handled: bool,
                           events: seq<Event>)
  {
    && (forall ev :: ev in events ==> ev.msg == m)
    && (forall cb: Callback :: multiset(events)[Call(cb, m)]
          == Count(tab, (e: Entry) =>
               e.sub == t && e.pub == m.publisher && e.id == m.id && e.cb == Some(cb) && e.active))
    && (forall u: TaskId :: multiset(events)[Forward(u, m)]
          == if copying && t == m.publisher && u != t && u < tasks.mux && u in tasks.live
                && exists e :: e in tab && e.sub == u && e.pub == t && e.id == m.id && e.active
             then 1 else 0)
    && (handled <==> exists e ::
          e in tab && e.sub == t && e.pub == m.publisher && e.id == m.id && e.cb != None && e.active)
  }

  lemma HandledOnFields(t: TaskId, m: Msg, tab: seq<Entry>)
    ensures (exists e :: e in tab && Fires(t, m, e))
       <==> exists e :: e in tab && e.sub == t && e.pub == m.publisher && e.id == m.id && e.cb != None && e.active
  {
    if e :| e in tab && Fires(t, m, e) {
      assert e.cb != None;
    }
    if e :| e in tab && e.sub == t && e.pub == m.publisher && e.id == m.id && e.cb != None && e.active {
      assert Fires(t, m, e);
    }
  }

  lemma TargetsOnFields(tasks: Tasks, t: TaskId, m: Msg, tab: seq<Entry>, u: TaskId)
    ensures u in Targets(tasks, t, m, tab)
       <==> t == m.publisher && u != t && u < tasks.mux && u in tasks.live
            && exists e :: e in tab && e.sub == u && e.pub == t && e.id == m.id && e.active
  {
    if t == m.publisher && u != t && u < tasks.mux && u in tasks.live {
      if e :| e in tab && e.sub == u && e.pub == t && e.id == m.id && e.active {
        assert Wants(tasks, t, m, e);
      }
    }
  }

  /** Events that deliver what is owed, in terms of the fields. */
  lemma DeliveredOnFields(tasks: Tasks, t: TaskId, m: Msg, tab: seq<Entry>, handled: bool, events: seq<Event>)
    requires Delivered(tasks, t, m, tab, handled, events)
    ensures Performs(tasks, t, m, tab, true, handled, events)
  {
    hide Calls, Targets, Fires, Wants;
    var calls, ts := Calls(t, m, tab), Targets(tasks, t, m, tab);
    CallsOnly(t, m, tab);
    HandledOnFields(t, m, tab);
    NoForwardIn(calls, m);
    forall ev | ev in events ensures ev.msg == m {
      assert ev in multiset(events);
      if ev in multiset(calls) { assert ev in calls; }
    }
    forall cb: Callback {
      CallsCounted(t, m, tab, cb);
    }
    forall u: TaskId ensures multiset(events)[Forward(u, m)] == if u in ts then 1 else 0 {
      assert Forward(u, m) in CopiesTo(ts, m) <==> u in ts;
    }
    forall u: TaskId {
      TargetsOnFields(tasks, t, m, tab, u);
    }
  }

  /** Without the pointer array the callbacks still run; no copy is made. */
  lemma UncopiedOnFields(tasks: Tasks, t: TaskId, m: Msg, tab: seq<Entry>, handled: bool)
    requires handled <==> exists e :: e in tab && Fires(t, m, e)
    ensures Performs(tasks, t, m, tab, false, handled, Indexed(tasks, t, m, tab, []))
  {
    var calls := Calls(t, m, tab);
    CallsOfFilter(t, m, tab);
    assert Indexed(tasks, t, m, tab, []) == [] + calls == calls;
    CallsOnly(t, m, tab);
    NoForwardIn(calls, m);
    HandledOnFields(t, m, tab);
    forall cb: Callback {
      CallsCounted(t, m, tab, cb);
    }
  }

  // ---- Runtime toggles ----

  /** One thread_msg_subscribe_set_active call; `cb == None` addresses every entry of the triple. */
  datatype Toggle = Toggle(sub: TaskId, pub: TaskId, id: U32, cb: Option<Callback>, active: bool)

  predicate Hits(sub: TaskId, pub: TaskId, id: U32, cb: Option<Callback>, e: Entry) {
    OnTriple(e, sub, pub, id) && (cb.Some? ==> e.cb == cb)
  }

  predicate ToggleHits(c: Toggle, e: Entry) { Hits(c.sub, c.pub, c.id, c.cb, e) }

  function Switch(c: Toggle, e: Entry): Entry {
    if ToggleHits(c, e) then e.(active := c.active) else e
  }

  function ReplayOne(e: Entry, h: seq<Toggle>): Entry {
    if h == [] then e else Switch(h[|h| - 1], ReplayOne(e, h[..|h| - 1]))
  }

  /** The table after a history of toggles, in ROM order. */
  function Replay(rom: seq<Entry>, h: seq<Toggle>): seq<Entry> {
    Map(rom, e => ReplayOne(e, h))
  }

  lemma {:induction false} ReplayKeepsKeys(e: Entry, h: seq<Toggle>)
    ensures ReplayOne(e, h).(active := e.active) == e
  {
    if h == [] {
    } else {
      ReplayKeepsKeys(e, h[..|h| - 1]);
    }
  }

  /** Call `k` of the history is the last one that addressed the entry. */
  ghost predicate LastHit(e: Entry, h: seq<Toggle>, k: int) {
    0 <= k < |h| && ToggleHits(h[k], e) && forall j :: k < j < |h| ==> !ToggleHits(h[j], e)
  }

  /** An entry's flag is the value of the last call that addressed it, or its ROM value if none did. */
  lemma {:induction false} ReplayIsLastCall(e: Entry, h: seq<Toggle>)
    ensures forall k :: LastHit(e, h, k) ==> ReplayOne(e, h).active == h[k].active
    ensures (forall k :: 0 <= k < |h| ==> !ToggleHits(h[k], e)) ==> ReplayOne(e, h).active == e.active
    ensures (exists k :: 0 <= k < |h| && ToggleHits(h[k], e)) ==> exists k :: LastHit(e, h, k)
  {
    if h == [] {
    } else {
      var h', last := h[..|h| - 1], |h| - 1;
      ReplayKeepsKeys(e, h');
      ReplayIsLastCall(e, h');
      if ToggleHits(h[last], e) {
        assert LastHit(e, h, last);
      } else {
        forall k | 0 <= k < last ensures LastHit(e, h, k) <==> LastHit(e, h', k) {
          assert forall j :: k <= j < last ==> h[j] == h'[j];
        }
        assert forall j :: 0 <= j < last ==> h[j] == h'[j];
      }
    }
  }

  function SwitchAll(c: Toggle, tab: seq<Entry>): seq<Entry> {
    Map(tab, (e: Entry) => Switch(c, e))
  }

  lemma ReplayStep(rom: seq<Entry>, h: seq<Toggle>, c: Toggle)
    ensures Replay(rom, h + [c]) == SwitchAll(c, Replay(rom, h))
  {
    assert (h + [c])[..|h|] == h;
  }

  /** What a fully built index is, after any history of toggles (`fwd == None`: no pointer array). */
  ghost predicate Built(rom: seq<Entry>, h: seq<Toggle>, ram: seq<Entry>, fwd: Option<seq<nat>>) {
    && DirectSorted(ram)
    && multiset(ram) == multiset(Replay(rom, h))
    && (fwd.Some? ==> ForwardIndex(ram, fwd.value))
  }

  lemma SwitchKeepsDirect(ram: seq<Entry>, c: Toggle)
    requires DirectSorted(ram)
    ensures DirectSorted(SwitchAll(c, ram))
  {
    var now := SwitchAll(c, ram);
    forall i, j | 0 <= i < j < |now| ensures CmpDirect(now[i], now[j]) <= 0 {
      assert CmpDirect(ram[i], ram[j]) <= 0;
    }
  }

  lemma SwitchKeepsForward(ram: seq<Entry>, fwd: seq<nat>, c: Toggle)
    requires ForwardIndex(ram, fwd)
    ensures ForwardIndex(SwitchAll(c, ram), fwd)
  {
    var now := SwitchAll(c, ram);
    forall i, j | 0 <= i < j < |fwd| ensures CmpForward(Deref(now, fwd[i]), Deref(now, fwd[j])) <= 0 {
      assert CmpForward(Deref(ram, fwd[i]), Deref(ram, fwd[j])) <= 0;
    }
  }

  /** A toggle made through the triple view is seen through the pointer view. */
  lemma SwitchSeenThroughPointers(ram: seq<Entry>, fwd: seq<nat>, c: Toggle)
    requires ForwardIndex(ram, fwd)
    ensures Rows(SwitchAll(c, ram), fwd) == SwitchAll(c, Rows(ram, fwd))
  {
  }

  /** A toggle keeps both views of the table. */
  lemma SwitchKeepsBuilt(rom: seq<Entry>, h: seq<Toggle>, ram: seq<Entry>, fwd: Option<seq<nat>>, c: Toggle)
    requires Built(rom, h, ram, fwd)
    ensures Built(rom, h + [c], SwitchAll(c, ram), fwd)
  {
    SwitchKeepsDirect(ram, c);
    ReplayStep(rom, h, c);
    MapPermutes(ram, Replay(rom, h), (e: Entry) => Switch(c, e));
    if fwd.Some? { SwitchKeepsForward(ram, fwd.value, c); }
  }

  /** On the fields: the entry is on the triple, and if a callback is given, names it. */
  lemma HitsOnFields(sub: TaskId, pub: TaskId, id: U32, cb: Option<Callback>, e: Entry)
    ensures Hits(sub, pub, id, cb, e) <==> e.sub == sub && e.pub == pub && e.id == id && (cb == None || e.cb == cb)
  {
  }

  /** The entries a toggle does not address. */
  function Spared(c: Toggle, es: seq<Entry>): seq<Entry> {
    Filter(es, (e: Entry) => !ToggleHits(c, e))
  }

  /** For the callbacks of its triple, switching entries off is taking them out of the table. */
  lemma {:induction false} OffIsOut(c: Toggle, m: Msg, es: seq<Entry>)
    requires !c.active && m.publisher == c.pub && m.id == c.id
    ensures Calls(c.sub, m, SwitchAll(c, es)) == Calls(c.sub, m, Spared(c, es))
  {
    if es == [] {
    } else {
      OffIsOut(c, m, es[1..]);
      assert SwitchAll(c, es)[1..] == SwitchAll(c, es[1..]);
      assert ([es[0]] + Spared(c, es[1..]))[1..] == Spared(c, es[1..]);
    }
  }

  lemma {:induction false} CallsComeFrom(t: TaskId, m: Msg, es: seq<Entry>, ev: Event)
    requires ev in Calls(t, m, es)
    ensures exists e :: e in es && Fires(t, m, e) && ev == Call(e.cb.value, m)
  {
    if ev in CallOf(t, m, es[0]) {
      assert es[0] in es;
    } else {
      CallsComeFrom(t, m, es[1..], ev);
      var e :| e in es[1..] && Fires(t, m, e) && ev == Call(e.cb.value, m);
      assert e in es;
    }
  }

  lemma {:induction false} CallsInclude(t: TaskId, m: Msg, es: seq<Entry>, e: Entry)
    requires e in es && Fires(t, m, e)
    ensures Call(e.cb.value, m) in Calls(t, m, es)
  {
    if e == es[0] {
      assert Call(e.cb.value, m) in CallOf(t, m, es[0]);
    } else {
      CallsInclude(t, m, es[1..], e);
    }
  }

  lemma OffTargets(c: Toggle, tasks: Tasks, m: Msg, tab: seq<Entry>)
    requires !c.active && m.publisher == c.pub && m.id == c.id
    ensures forall u ::
              u in Targets(tasks, c.pub, m, SwitchAll(c, tab)) <==> u in Targets(tasks, c.pub, m, Spared(c, tab))
  {
    var off, out := SwitchAll(c, tab), Spared(c, tab);
    forall u | u in Targets(tasks, c.pub, m, off) ensures u in Targets(tasks, c.pub, m, out) {
      var e :| e in off && Wants(tasks, c.pub, m, e) && e.sub == u;
      var i :| 0 <= i < |off| && off[i] == e;
      assert tab[i] in tab && tab[i] in out;
    }
    forall u | u in Targets(tasks, c.pub, m, out) ensures u in Targets(tasks, c.pub, m, off) {
      var e :| e in out && Wants(tasks, c.pub, m, e) && e.sub == u;
      var i :| 0 <= i < |tab| && tab[i] == e;
      assert off[i] in off;
    }
  }

  /** An active entry of the triple with a callback other than the one given. */
  predicate OtherCallback(s: TaskId, p: TaskId, id: U32, cb: Option<Callback>, e: Entry) {
    e.sub == s && e.pub == p && e.id == id && e.active && e.cb != None && cb != None && e.cb != cb
  }

  /**
   * After any toggles, switching off a triple, or one callback of it, removes exactly the addressed
   * entries: the others of the triple run as before, its task gets a copy only if one of them is active,
   * and no other task's copy is affected.
   */
  lemma DisabledIsSilent(tasks: Tasks, s: TaskId, p: TaskId, id: U32, cb: Option<Callback>, rom: seq<Entry>,
                         h: seq<Toggle>, payload: seq<bv8>)
    ensures var c := Toggle(s, p, id, cb, false); var was, tab := Replay(rom, h), Replay(rom, h + [c]);
            var m := Msg(id, p, payload);
            && Calls(s, m, tab) == Calls(s, m, Spared(c, was))
            && (forall ev :: ev in Calls(s, m, tab) ==> ev.Call? && cb.Some? && ev.cb != cb.value)
            && (forall e :: e in was && OtherCallback(s, p, id, cb, e) ==> Call(e.cb.value, m) in Calls(s, m, tab))
            && (s in Targets(tasks, p, m, tab)
                <==> s != p && tasks.Known(s)
                     && exists e :: e in was && OnTriple(e, s, p, id) && e.active && !ToggleHits(c, e))
            && (forall u :: u != s ==> (u in Targets(tasks, p, m, tab) <==> u in Targets(tasks, p, m, was)))
  {
    var c := Toggle(s, p, id, cb, false);
    var was, m := Replay(rom, h), Msg(id, p, payload);
    ReplayStep(rom, h, c);
    OffIsOut(c, m, was);
    OffTargets(c, tasks, m, was);
    forall ev | ev in Calls(s, m, Spared(c, was)) ensures ev.Call? && cb.Some? && ev.cb != cb.value {
      CallsComeFrom(s, m, Spared(c, was), ev);
    }
    forall e | e in was && OtherCallback(s, p, id, cb, e)
      ensures Call(e.cb.value, m) in Calls(s, m, Spared(c, was))
    {
      CallsInclude(s, m, Spared(c, was), e);
    }
    SparedTargets(c, tasks, m, was);
  }

  lemma SparedTargets(c: Toggle, tasks: Tasks, m: Msg, was: seq<Entry>)
    requires m.publisher == c.pub && m.id == c.id
    ensures c.sub in Targets(tasks, c.pub, m, Spared(c, was))
       <==> c.sub != c.pub && tasks.Known(c.sub)
            && exists e :: e in was && OnTriple(e, c.sub, c.pub, c.id) && e.active && !ToggleHits(c, e)
    ensures forall u :: u != c.sub ==>
              (u in Targets(tasks, c.pub, m, Spared(c, was)) <==> u in Targets(tasks, c.pub, m, was))
  {
    if c.sub != c.pub && tasks.Known(c.sub) {
      if e :| e in was && OnTriple(e, c.sub, c.pub, c.id) && e.active && !ToggleHits(c, e) {
        assert e in Spared(c, was) && Wants(tasks, c.pub, m, e);
      }
    }
    forall u | u != c.sub && u in Targets(tasks, c.pub, m, was) ensures u in Targets(tasks, c.pub, m, Spared(c, was)) {
      var e :| e in was && Wants(tasks, c.pub, m, e) && e.sub == u;
      assert e in Spared(c, was);
    }
  }

  // ---- Event dispatch (manager loop) ----

  predicate EventFires(t: TaskId, ev: U32, e: Entry) { OnTriple(e, t, t, ev) && e.cb.Some? && e.active }

  /** The callback an event runs: that of the first entry, in table order, that fires. */
  function FirstCallback(t: TaskId, ev: U32, es: seq<Entry>): Option<Callback> {
    if es == [] then None
    else if EventFires(t, ev, es[0]) then es[0].cb
    else FirstCallback(t, ev, es[1..])
  }

  ghost predicate OneCallback(t: TaskId, ev: U32, es: seq<Entry>) {
    forall d, e :: d in es && e in es && EventFires(t, ev, d) && EventFires(t, ev, e) ==> d.cb == e.cb
  }

  /** On the fields: an active entry of (t, t, ev) with a callback, and no such entry before it. */
  ghost predicate HandlesFirst(t: TaskId, ev: U32, tab: seq<Entry>, i: int) {
    && 0 <= i < |tab| && tab[i].sub == t && tab[i].pub == t && tab[i].id == ev && tab[i].cb != None && tab[i].active
    && forall j :: 0 <= j < i ==>
         !(tab[j].sub == t && tab[j].pub == t && tab[j].id == ev && tab[j].cb != None && tab[j].active)
  }

  /** An event runs the callback of the first active entry of its triple that has one, and otherwise none. */
  lemma FirstCallbackOnFields(t: TaskId, ev: U32, tab: seq<Entry>)
    ensures forall i :: HandlesFirst(t, ev, tab, i) ==> FirstCallback(t, ev, tab) == tab[i].cb
    ensures FirstCallback(t, ev, tab) == None
       <==> forall e :: e in tab && e.sub == t && e.pub == t && e.id == ev && e.cb != None ==> !e.active
  {
    forall i | HandlesFirst(t, ev, tab, i) ensures FirstCallback(t, ev, tab) == tab[i].cb {
      FirstCallbackAt(t, ev, tab, i);
    }
    if exists e :: e in tab && EventFires(t, ev, e) {
      var k := FirstFiring(t, ev, tab);
      assert tab[k] in tab;
    } else {
      FirstCallbackNone(t, ev, tab);
      forall e | e in tab && e.sub == t && e.pub == t && e.id == ev && e.cb != None ensures !e.active {
        assert !EventFires(t, ev, e);
      }
    }
  }

  lemma {:induction false} FirstCallbackAt(t: TaskId, ev: U32, es: seq<Entry>, k: nat)
    requires k < |es| && EventFires(t, ev, es[k])
    requires forall i :: 0 <= i < k ==> !EventFires(t, ev, es[i])
    ensures FirstCallback(t, ev, es) == es[k].cb
  {
    if k == 0 {
    } else {
      FirstCallbackAt(t, ev, es[1..], k - 1);
    }
  }

  lemma {:induction false} FirstCallbackNone(t: TaskId, ev: U32, es: seq<Entry>)
    requires forall e :: e in es ==> !EventFires(t, ev, e)
    ensures FirstCallback(t, ev, es) == None
  {
    if es == [] {
    } else {
      FirstCallbackNone(t, ev, es[1..]);
    }
  }

  lemma {:induction false} FirstFiring(t: TaskId, ev: U32, es: seq<Entry>) returns (k: nat)
    requires exists e :: e in es && EventFires(t, ev, e)
    ensures k < |es| && EventFires(t, ev, es[k]) && FirstCallback(t, ev, es) == es[k].cb
    ensures forall i :: 0 <= i < k ==> !EventFires(t, ev, es[i])
  {
    if EventFires(t, ev, es[0]) {
      k := 0;
    } else {
      var j := FirstFiring(t, ev, es[1..]);
      k := j + 1;
    }
  }

  /**
   * Two arrangements of one table handle the same events. They run the same callback for every
   * sorted arrangement exactly when all firing entries name one callback.
   */
  lemma EventArrangements(t: TaskId, ev: U32, a: seq<Entry>)
    requires DirectSorted(a)
    ensures forall b | multiset(b) == multiset(a) :: FirstCallback(t, ev, b).Some? <==> FirstCallback(t, ev, a).Some?
    ensures OneCallback(t, ev, a)
      ==> (forall b | multiset(b) == multiset(a) :: FirstCallback(t, ev, b) == FirstCallback(t, ev, a))
    ensures !OneCallback(t, ev, a)
      ==> exists b ::
            multiset(b) == multiset(a) && DirectSorted(b) && FirstCallback(t, ev, b) != FirstCallback(t, ev, a)
  {
    forall b: seq<Entry> | multiset(b) == multiset(a)
      ensures FirstCallback(t, ev, b).Some? <==> FirstCallback(t, ev, a).Some?
      ensures OneCallback(t, ev, a) ==> FirstCallback(t, ev, b) == FirstCallback(t, ev, a)
    {
      SameMembers(a, b);
      if e :| e in a && EventFires(t, ev, e) {
        var i := FirstFiring(t, ev, a);
        var j := FirstFiring(t, ev, b);
        assert a[i] in a && b[j] in b;
      } else {
        FirstCallbackNone(t, ev, a);
        FirstCallbackNone(t, ev, b);
      }
    }
    if !OneCallback(t, ev, a) {
      var b := OtherArrangement(t, ev, a);
    }
  }

  lemma OtherArrangement(t: TaskId, ev: U32, a: seq<Entry>) returns (b: seq<Entry>)
    requires DirectSorted(a) && !OneCallback(t, ev, a)
    ensures multiset(b) == multiset(a) && DirectSorted(b) && FirstCallback(t, ev, b) != FirstCallback(t, ev, a)
  {
    var d, e :| d in a && e in a && EventFires(t, ev, d) && EventFires(t, ev, e) && d.cb != e.cb;
    var i := FirstFiring(t, ev, a);
    var other := if a[i].cb != d.cb then d else e;
    var j :| 0 <= j < |a| && a[j] == other;
    b := SwapEquals(a, i, j);
    FirstCallbackAt(t, ev, b, i);
  }

  /** Exchanging two entries of one triple keeps the table sorted. */
  lemma SwapEquals(a: seq<Entry>, i: nat, j: nat) returns (b: seq<Entry>)
    requires DirectSorted(a) && i < j < |a| && OnTriple(a[i], a[j].sub, a[j].pub, a[j].id)
    ensures b == a[i := a[j]][j := a[i]]
    ensures multiset(b) == multiset(a) && DirectSorted(b)
  {
    b := a[i := a[j]][j := a[i]];
    forall x, y | 0 <= x < y < |b| ensures CmpDirect(b[x], b[y]) <= 0 {
      assert CmpDirect(a[x], a[y]) <= 0;
      assert OnTriple(b[x], a[x].sub, a[x].pub, a[x].id) && OnTriple(b[y], a[y].sub, a[y].pub, a[y].id);
    }
  }
}
