/**
 * Exactly-once fan-out: what a network run with fixed flags delivers, and what its refusals cost.
 * Every task's event log is then the concatenation of the `Indexed` traces that
 * `Registry.DispatchMessage` promises, in the order the task took its messages.
 */
module FanOut {
  import opened Types
  import opened Lists
  import opened RegistrySpec
  import opened Network

  predicate FlagsFixed(acts: seq<Action>) { forall a :: a in acts ==> !a.Flag? }

  /** Step `a` is p's attempt at a copy for t, and the copy is refused. */
  predicate RefusedFor(c: Config, s: Net, a: Action, p: TaskId, t: TaskId)
    requires WF(c, s) && Enabled(c, s, a)
  {
    a.Examine? && a.t == p && !a.ok && Copies(c, s, p) && Deref(s.ram, s.hand[p].todo[0]).sub == t
  }

  /** How many copies from p to t a run loses. */
  function Refusals(c: Config, s: Net, acts: seq<Action>, p: TaskId, t: TaskId): nat
    requires WF(c, s) && Runs(c, s, acts)
    decreases acts
  {
    if acts == [] then 0
    else (if RefusedFor(c, s, acts[0], p, t) then 1 else 0) + Refusals(c, Apply(c, s, acts[0]), acts[1..], p, t)
  }

  // ---- Event logs ----

  function AllEvents(c: Config, t: TaskId, ms: seq<Msg>): seq<Event> {
    if ms == [] then []
    else AllEvents(c, t, ms[..|ms| - 1]) + Indexed(c.tasks, t, ms[|ms| - 1], c.rows, c.fwd)
  }

  /** The events a dispatch still has ahead of it. */
  function Ahead(c: Config, t: TaskId, h: Hand): seq<Event> {
    if h.Idle? then []
    else ForwardPass(c.tasks, t, h.m, Rows(c.rows, h.todo), h.sent) + Calls(t, h.m, Rows(c.rows, h.calls))
  }

  predicate LogAt(c: Config, s: Net, t: TaskId)
    requires WF(c, s) && t < c.tasks.mux
  {
    s.log[t] + Ahead(c, t, s.hand[t]) == AllEvents(c, t, s.taken[t])
  }

  lemma TripleRowsSnoc(rows: seq<Entry>, e: Entry, s: TaskId, p: TaskId, id: U32)
    ensures TripleRows(rows + [e], s, p, id)
         == if OnTriple(e, s, p, id) then TripleRows(rows, s, p, id) + [e] else TripleRows(rows, s, p, id)
  {
    FilterAppend(rows, [e], (x: Entry) => OnTriple(x, s, p, id));
  }

  lemma {:induction false} RowsOfPositions(rows: seq<Entry>, n: nat, s: TaskId, p: TaskId, id: U32)
    requires n <= |rows|
    ensures forall i :: i in TriplePositions(rows, n, s, p, id) ==> i < n
    ensures Rows(rows, TriplePositions(rows, n, s, p, id)) == TripleRows(rows[..n], s, p, id)
  {
    if n == 0 {
    } else {
      var front, last := TriplePositions(rows, n - 1, s, p, id), rows[n - 1];
      RowsOfPositions(rows, n - 1, s, p, id);
      assert rows[..n] == rows[..n - 1] + [last];
      TripleRowsSnoc(rows[..n - 1], last, s, p, id);
      assert Rows(rows, front + [n - 1]) == Rows(rows, front) + [last];
      assert front + [] == front;
    }
  }

  /** A fresh dispatch has exactly its indexed trace ahead of it. */
  lemma AheadAtBegin(c: Config, t: TaskId, m: Msg)
    ensures Ahead(c, t, Begin(c, t, m)) == Indexed(c.tasks, t, m, c.rows, c.fwd)
  {
    RowsOfPositions(c.rows, |c.rows|, t, m.publisher, m.id);
    assert c.rows[..|c.rows|] == c.rows;
    if m.publisher != t { assert Rows(c.rows, []) == []; }
  }

  lemma LogStep(c: Config, s: Net, a: Action, t: TaskId)
    requires WF(c, s) && Enabled(c, s, a) && !a.Flag? && s.ram == c.rows && t < c.tasks.mux
    requires LogAt(c, s, t)
    ensures LogAt(c, Apply(c, s, a), t)
  {
    match a
    case Publish(_, _, _) =>
    case Take(v) => if v == t { LogTake(c, s, t); }
    case Examine(v, ok) => if v == t { LogExamine(c, s, t, ok); }
    case Invoke(v) => if v == t { LogInvoke(c, s, t); }
    case Finish(v) => if v == t { assert Rows(c.rows, []) == []; }
  }

  lemma LogTake(c: Config, s: Net, t: TaskId)
    requires WF(c, s) && Enabled(c, s, Take(t)) && LogAt(c, s, t)
    ensures LogAt(c, Apply(c, s, Take(t)), t)
  {
    var m := s.box[t][0];
    AheadAtBegin(c, t, m);
    assert (s.taken[t] + [m])[..|s.taken[t]|] == s.taken[t];
    assert s.log[t] + [] == s.log[t];
  }

  lemma LogExamine(c: Config, s: Net, t: TaskId, ok: bool)
    requires WF(c, s) && Enabled(c, s, Examine(t, ok)) && s.ram == c.rows && LogAt(c, s, t)
    ensures LogAt(c, Apply(c, s, Examine(t, ok)), t)
  {
    var s' := Apply(c, s, Examine(t, ok));
    AheadExamine(c, t, s.hand[t], s.log[t]);
    assert s'.taken == s.taken;
  }

  /** Examining one pointer moves at most one forward from the future to the log. */
  lemma AheadExamine(c: Config, t: TaskId, h: Hand, log: seq<Event>)
    requires h.Busy? && h.todo != []
    ensures var e := Deref(c.rows, h.todo[0]);
            log + Ahead(c, t, h)
            == if Wants(c.tasks, t, h.m, e) && e.sub !in h.sent
               then (log + [Forward(e.sub, h.m)]) + Ahead(c, t, h.(todo := h.todo[1..], sent := h.sent + {e.sub}))
               else log + Ahead(c, t, h.(todo := h.todo[1..]))
  {
    var es := Rows(c.rows, h.todo);
    assert es[0] == Deref(c.rows, h.todo[0]) && es[1..] == Rows(c.rows, h.todo[1..]);
  }

  lemma LogInvoke(c: Config, s: Net, t: TaskId)
    requires WF(c, s) && Enabled(c, s, Invoke(t)) && s.ram == c.rows && LogAt(c, s, t)
    ensures LogAt(c, Apply(c, s, Invoke(t)), t)
  {
    AheadInvoke(c, t, s.hand[t], s.log[t]);
  }

  lemma AheadInvoke(c: Config, t: TaskId, h: Hand, log: seq<Event>)
    requires h.Busy? && h.todo == [] && h.calls != []
    ensures log + Ahead(c, t, h)
         == (log + CallOf(t, h.m, Deref(c.rows, h.calls[0]))) + Ahead(c, t, h.(calls := h.calls[1..]))
  {
    var ds := Rows(c.rows, h.calls);
    assert ds[0] == Deref(c.rows, h.calls[0]) && ds[1..] == Rows(c.rows, h.calls[1..]);
    assert Rows(c.rows, h.todo) == [];
  }

  // ---- Copies ----

  /** Of p's messages, those that ask for a copy to t. */
  function Select(c: Config, ms: seq<Msg>, p: TaskId, t: TaskId): seq<Msg> {
    if ms == [] then []
    else Select(c, ms[..|ms| - 1], p, t)
         + (if t in Targets(c.tasks, p, ms[|ms| - 1], c.rows) then [ms[|ms| - 1]] else [])
  }

  lemma SelectSnoc(c: Config, ms: seq<Msg>, m: Msg, p: TaskId, t: TaskId)
    ensures Select(c, ms + [m], p, t)
         == if t in Targets(c.tasks, p, m, c.rows) then Select(c, ms, p, t) + [m] else Select(c, ms, p, t)
  {
    assert (ms + [m])[..|ms|] == ms;
  }

  /** A busy task has served, or still has ahead of it, every task its message is owed to. */
  predicate CoverAt(c: Config, s: Net, p: TaskId)
    requires WF(c, s) && p < c.tasks.mux
  {
    s.hand[p].Busy? && s.hand[p].m.publisher == p ==>
      Targets(c.tasks, p, s.hand[p].m, c.rows)
      == s.hand[p].sent + Targets(c.tasks, p, s.hand[p].m, Rows(c.rows, s.hand[p].todo))
  }

  /** Of the copies p has offered t by now, `r` were refused and the others arrived; if none was refused, in order. */
  predicate Tally(c: Config, s: Net, p: TaskId, t: TaskId, r: nat)
    requires WF(c, s) && p < c.tasks.mux && t < c.tasks.mux && HandOk(c, s, p)
  {
    p != t ==>
      && |FromPub(s.arrived[t], p)| + r == |Select(c, Offered(c, s, p, t), p, t)|
      && (r == 0 ==> FromPub(s.arrived[t], p) == Select(c, Offered(c, s, p, t), p, t))
  }

  lemma CoverStep(c: Config, s: Net, a: Action, p: TaskId)
    requires ForwardIndex(c.rows, c.fwd) && WF(c, s) && Enabled(c, s, a) && !a.Flag? && s.ram == c.rows
    requires p < c.tasks.mux && CoverAt(c, s, p)
    ensures CoverAt(c, Apply(c, s, a), p)
  {
    match a
    case Publish(_, _, _) =>
    case Take(v) =>
      if v == p && s.box[p][0].publisher == p { IndexFindsTargets(c.tasks, p, s.box[p][0], c.rows, c.fwd); }
    case Examine(v, _) =>
      if v == p {
        var es := Rows(c.rows, s.hand[p].todo);
        assert es[0] == Deref(c.rows, s.hand[p].todo[0]) && es[1..] == Rows(c.rows, s.hand[p].todo[1..]);
        TargetsCons(c.tasks, p, s.hand[p].m, es);
      }
    case Invoke(_) =>
    case Finish(_) =>
  }

  lemma TallyStep(c: Config, s: Net, a: Action, p: TaskId, t: TaskId, r: nat)
    requires Base(c, s) && Enabled(c, s, a) && !a.Flag? && s.ram == c.rows
    requires p < c.tasks.mux && t < c.tasks.mux && HandOk(c, s, p) && Tally(c, s, p, t, r) && CoverAt(c, s, p)
    requires HandOk(c, Apply(c, s, a), p)
    ensures Tally(c, Apply(c, s, a), p, t, r + if RefusedFor(c, s, a, p, t) then 1 else 0)
  {
    if p != t {
      if a.Examine? && Copies(c, s, a.t) { CopyIsLegit(c, s, a.t); }
      if Settles(c, s, a, p, t) {
        OfferSettled(c, s, a, p, t);
        SelectSnoc(c, Offered(c, s, p, t), s.hand[p].m, p, t);
        SettledAsOwed(c, s, a, p, t);
      } else {
        OfferUntouched(c, s, a, p, t);
      }
    }
  }

  /** A copy goes only to a task that is owed one, and a dispatch finishes only when every owed task was served. */
  lemma SettledAsOwed(c: Config, s: Net, a: Action, p: TaskId, t: TaskId)
    requires WF(c, s) && Enabled(c, s, a) && s.ram == c.rows && p < c.tasks.mux && CoverAt(c, s, p)
    requires Settles(c, s, a, p, t)
    ensures a.Examine? <==> t in Targets(c.tasks, p, s.hand[p].m, c.rows)
  {
    if a.Examine? {
      assert Rows(c.rows, s.hand[p].todo)[0].sub == t;
    } else {
      assert Rows(c.rows, []) == [];
    }
  }

  ghost predicate FanInv(c: Config, s: Net) {
    && Base(c, s)
    && s.ram == c.rows
    && (forall t: TaskId :: t < c.tasks.mux ==> LogAt(c, s, t))
    && (forall p: TaskId :: p < c.tasks.mux ==> CoverAt(c, s, p))
  }

  lemma FanInvStep(c: Config, s: Net, a: Action)
    requires ForwardIndex(c.rows, c.fwd) && FanInv(c, s) && Enabled(c, s, a) && !a.Flag?
    ensures FanInv(c, Apply(c, s, a))
  {
    var s' := Apply(c, s, a);
    BaseStep(c, s, a);
    forall t: TaskId | t < c.tasks.mux ensures LogAt(c, s', t) && CoverAt(c, s', t) {
      assert LogAt(c, s, t) && CoverAt(c, s, t);
      LogStep(c, s, a, t);
      CoverStep(c, s, a, t);
    }
  }

  lemma {:induction false} RunKeepsLogs(c: Config, s: Net, acts: seq<Action>)
    requires ForwardIndex(c.rows, c.fwd) && FanInv(c, s) && Runs(c, s, acts) && FlagsFixed(acts)
    ensures FanInv(c, Exec(c, s, acts))
    decreases acts
  {
    if acts == [] {
    } else {
      FanInvStep(c, s, acts[0]);
      RunKeepsLogs(c, Apply(c, s, acts[0]), acts[1..]);
    }
  }

  lemma {:induction false} RunTallies(c: Config, s: Net, acts: seq<Action>, p: TaskId, t: TaskId, r: nat)
    requires ForwardIndex(c.rows, c.fwd) && FanInv(c, s) && Runs(c, s, acts) && FlagsFixed(acts)
    requires p < c.tasks.mux && t < c.tasks.mux && HandOk(c, s, p) && Tally(c, s, p, t, r)
    ensures FanInv(c, Exec(c, s, acts)) && HandOk(c, Exec(c, s, acts), p)
    ensures Tally(c, Exec(c, s, acts), p, t, r + Refusals(c, s, acts, p, t))
    decreases acts
  {
    if acts == [] {
    } else {
      var a := acts[0];
      var s' := Apply(c, s, a);
      FanInvStep(c, s, a);
      assert TaskOk(c, s', p) && CoverAt(c, s, p);
      TallyStep(c, s, a, p, t, r);
      RunTallies(c, s', acts[1..], p, t, r + if RefusedFor(c, s, a, p, t) then 1 else 0);
    }
  }

  lemma StartFan(c: Config)
    ensures FanInv(c, Start(c))
  {
    StartInvariants(c);
  }

  /**
   * Dispatch order, refusals allowed: whatever the interleaving, an idle task has attempted exactly
   * the forwards and run exactly the callbacks of its messages' indexed traces, in order, and each
   * trace does what its dispatch owes: one forward per owed task, each firing callback once.
   */
  lemma LogsAreIndexedTraces(c: Config, acts: seq<Action>, t: TaskId)
    requires ForwardIndex(c.rows, c.fwd) && Runs(c, Start(c), acts) && FlagsFixed(acts) && t < c.tasks.mux
    ensures var s := Exec(c, Start(c), acts);
            && (s.hand[t].Idle? ==> s.log[t] == AllEvents(c, t, s.taken[t]))
            && forall m :: m in s.taken[t] ==>
                 Delivered(c.tasks, t, m, c.rows, exists e :: e in c.rows && Fires(t, m, e),
                           Indexed(c.tasks, t, m, c.rows, c.fwd))
  {
    StartFan(c);
    RunKeepsLogs(c, Start(c), acts);
    var s := Exec(c, Start(c), acts);
    forall m | m in s.taken[t]
      ensures Delivered(c.tasks, t, m, c.rows, exists e :: e in c.rows && Fires(t, m, e),
                        Indexed(c.tasks, t, m, c.rows, c.fwd))
    {
      IndexedDelivers(c.tasks, t, m, c.rows, c.fwd);
    }
    assert LogAt(c, s, t);
    assert s.log[t] + [] == s.log[t];
  }

  /** Once the mailboxes are drained every accepted message has been taken. */
  lemma AllServed(c: Config, acts: seq<Action>, t: TaskId)
    requires ForwardIndex(c.rows, c.fwd) && Runs(c, Start(c), acts) && Quiescent(Exec(c, Start(c), acts))
             && t < c.tasks.mux
    ensures Exec(c, Start(c), acts).taken[t] == Exec(c, Start(c), acts).arrived[t]
  {
    StartInvariants(c);
    RunKeepsOrder(c, Start(c), acts);
    var s := Exec(c, Start(c), acts);
    assert TaskOk(c, s, t);
    assert s.taken[t] + [] == s.taken[t];
  }

  /**
   * Exactly-once fan-out and its exact condition. Once the mailboxes are drained, the messages of p that
   * t has taken and the copies refused on the way add up to those an active row (t, p, id) of a
   * registered t asks for; and t has taken precisely those, once each and in order, exactly when no copy
   * from p to t was refused.
   */
  lemma ExactlyOnce(c: Config, acts: seq<Action>, p: TaskId, t: TaskId)
    requires ForwardIndex(c.rows, c.fwd) && Runs(c, Start(c), acts) && FlagsFixed(acts)
    requires Quiescent(Exec(c, Start(c), acts))
    requires p < c.tasks.mux && t < c.tasks.mux && p != t
    ensures var s := Exec(c, Start(c), acts);
            var got, owed := FromPub(s.taken[t], p), Select(c, FromPub(s.arrived[p], p), p, t);
            && |got| + Refusals(c, Start(c), acts, p, t) == |owed|
            && (got == owed <==> Refusals(c, Start(c), acts, p, t) == 0)
  {
    StartFan(c);
    RunTallies(c, Start(c), acts, p, t, 0);
    AllServed(c, acts, p);
    AllServed(c, acts, t);
  }

  // ---- Callbacks ----

  predicate CallFor(p: TaskId, ev: Event) { ev.Call? && ev.msg.publisher == p }

  /** The callback runs of a log that are for p's messages. */
  function CallsIn(log: seq<Event>, p: TaskId): seq<Event> { Filter(log, (ev: Event) => CallFor(p, ev)) }

  /** Each active non-null callback of the table on (t, publisher, id), once for each message, in message order. */
  function CallsOwed(c: Config, t: TaskId, ms: seq<Msg>): seq<Event> {
    if ms == [] then [] else CallsOwed(c, t, ms[..|ms| - 1]) + Calls(t, ms[|ms| - 1], c.rows)
  }

  lemma CallsInTrace(c: Config, t: TaskId, m: Msg, p: TaskId)
    ensures CallsIn(Indexed(c.tasks, t, m, c.rows, c.fwd), p) == if m.publisher == p then Calls(t, m, c.rows) else []
  {
    var sel := (ev: Event) => CallFor(p, ev);
    var es := Rows(c.rows, PairPointers(c.rows, c.fwd, t, m.id));
    var copies := if t == m.publisher then ForwardPass(c.tasks, t, m, es, {}) else [];
    var calls := Calls(t, m, c.rows);
    CallsOfFilter(t, m, c.rows);
    ForwardsOnly(c.tasks, t, m, es, {});
    CallsOnly(t, m, c.rows);
    CallsInAppend(copies, calls, p);
    FilterNone(copies, sel);
    if m.publisher == p { FilterAll(calls, sel); } else { FilterNone(calls, sel); }
  }

  lemma CallsInAppend(a: seq<Event>, b: seq<Event>, p: TaskId)
    ensures CallsIn(a + b, p) == CallsIn(a, p) + CallsIn(b, p)
  {
    FilterAppend(a, b, (ev: Event) => CallFor(p, ev));
  }

  lemma CallsOwedNext(c: Config, t: TaskId, ms: seq<Msg>, m: Msg)
    ensures CallsOwed(c, t, ms + [m]) == CallsOwed(c, t, ms) + Calls(t, m, c.rows)
  {
    assert (ms + [m])[..|ms|] == ms;
  }

  lemma {:induction false} CallsInTraces(c: Config, t: TaskId, ms: seq<Msg>, p: TaskId)
    ensures CallsIn(AllEvents(c, t, ms), p) == CallsOwed(c, t, FromPub(ms, p))
  {
    if ms == [] {
    } else {
      var front, m := ms[..|ms| - 1], ms[|ms| - 1];
      CallsInTraces(c, t, front, p);
      CallsInTrace(c, t, m, p);
      CallsInAppend(AllEvents(c, t, front), Indexed(c.tasks, t, m, c.rows, c.fwd), p);
      if m.publisher == p {
        CallsOwedNext(c, t, FromPub(front, p), m);
      } else {
        assert CallsOwed(c, t, FromPub(front, p)) + [] == CallsOwed(c, t, FromPub(front, p));
        assert FromPub(ms, p) == FromPub(front, p);
      }
    }
  }

  /**
   * Once everything is drained, the callbacks that ran at t for p's messages are exactly those of the
   * table on (t, p, id), once for each message p published that t was owed, t = p included.
   */
  lemma CallbacksExactlyOnce(c: Config, acts: seq<Action>, p: TaskId, t: TaskId)
    requires ForwardIndex(c.rows, c.fwd) && Runs(c, Start(c), acts) && FlagsFixed(acts)
    requires Quiescent(Exec(c, Start(c), acts))
    requires p < c.tasks.mux && t < c.tasks.mux && (p != t ==> Refusals(c, Start(c), acts, p, t) == 0)
    ensures var s := Exec(c, Start(c), acts); var mine := FromPub(s.arrived[p], p);
            CallsIn(s.log[t], p) == CallsOwed(c, t, if t == p then mine else Select(c, mine, p, t))
  {
    LogsAreIndexedTraces(c, acts, t);
    CallsInTraces(c, t, Exec(c, Start(c), acts).taken[t], p);
    if t == p { AllServed(c, acts, p); } else { ExactlyOnce(c, acts, p, t); }
  }

  // ---- The same in numbers, on the table's fields ----

  lemma {:induction false} CountFromPub(ms: seq<Msg>, m: Msg)
    ensures multiset(FromPub(ms, m.publisher))[m] == multiset(ms)[m]
  {
    if ms == [] {
    } else {
      var front := ms[..|ms| - 1];
      CountFromPub(front, m);
      assert ms == front + [ms[|ms| - 1]];
    }
  }

  lemma {:induction false} CountSelect(c: Config, ms: seq<Msg>, p: TaskId, t: TaskId, m: Msg)
    ensures multiset(Select(c, ms, p, t))[m] == if t in Targets(c.tasks, p, m, c.rows) then multiset(ms)[m] else 0
  {
    if ms == [] {
    } else {
      var front := ms[..|ms| - 1];
      CountSelect(c, front, p, t, m);
      assert ms == front + [ms[|ms| - 1]];
    }
  }

  lemma CountTrace(c: Config, t: TaskId, m: Msg, cb: Callback, got: Msg)
    requires ForwardIndex(c.rows, c.fwd)
    ensures multiset(Indexed(c.tasks, t, got, c.rows, c.fwd))[Call(cb, m)]
         == if got == m
            then Count(c.rows, (e: Entry) =>
                   e.sub == t && e.pub == m.publisher && e.id == m.id && e.cb == Some(cb) && e.active)
            else 0
  {
    var events := Indexed(c.tasks, t, got, c.rows, c.fwd);
    IndexedDelivers(c.tasks, t, got, c.rows, c.fwd);
    DeliveredOnFields(c.tasks, t, got, c.rows, exists e :: e in c.rows && Fires(t, got, e), events);
    if got != m { assert Call(cb, m) !in events; }
  }

  lemma OneMore(n: nat, k: nat)
    ensures (n + 1) * k == n * k + k
  {
  }

  lemma {:induction false} CountEvents(c: Config, t: TaskId, ms: seq<Msg>, m: Msg, cb: Callback)
    requires ForwardIndex(c.rows, c.fwd)
    ensures multiset(AllEvents(c, t, ms))[Call(cb, m)]
         == multiset(ms)[m]
            * Count(c.rows, (e: Entry) =>
                e.sub == t && e.pub == m.publisher && e.id == m.id && e.cb == Some(cb) && e.active)
  {
    hide Count, Indexed, ForwardIndex;
    if ms == [] {
    } else {
      var front, got := ms[..|ms| - 1], ms[|ms| - 1];
      var k := Count(c.rows, (e: Entry) =>
                 e.sub == t && e.pub == m.publisher && e.id == m.id && e.cb == Some(cb) && e.active);
      CountEvents(c, t, front, m, cb);
      CountTrace(c, t, m, cb, got);
      assert ms == front + [got];
      OneMore(multiset(front)[m], k);
    }
  }

  /** If every copy p attempts is accepted, none is counted as refused. */
  lemma {:induction false} NoRefusals(c: Config, s: Net, acts: seq<Action>, p: TaskId, t: TaskId)
    requires WF(c, s) && Runs(c, s, acts) && forall a :: a in acts && a.Examine? && a.t == p ==> a.ok
    ensures Refusals(c, s, acts, p, t) == 0
    decreases acts
  {
    if acts == [] {
    } else {
      NoRefusals(c, Apply(c, s, acts[0]), acts[1..], p, t);
    }
  }

  /**
   * Copies in numbers: a message p published n times is taken n times by every other registered task with
   * an active entry (t, p, id), and never by any other task.
   */
  lemma CopiesCounted(c: Config, acts: seq<Action>, p: TaskId, t: TaskId, m: Msg)
    requires ForwardIndex(c.rows, c.fwd) && Runs(c, Start(c), acts) && FlagsFixed(acts)
    requires Quiescent(Exec(c, Start(c), acts)) && Refusals(c, Start(c), acts, p, t) == 0
    requires p < c.tasks.mux && t < c.tasks.mux && p != t && m.publisher == p
    ensures multiset(Exec(c, Start(c), acts).taken[t])[m]
         == if t in c.tasks.live && exists e :: e in c.rows && e.sub == t && e.pub == p && e.id == m.id && e.active
            then multiset(Published(acts, p))[m] else 0
  {
    var s := Exec(c, Start(c), acts);
    ExactlyOnce(c, acts, p, t);
    OwnMailIsPublished(c, acts, p);
    CountFromPub(s.taken[t], m);
    CountSelect(c, FromPub(s.arrived[p], p), p, t, m);
    TargetsOnFields(c.tasks, p, m, c.rows, t);
  }

  /**
   * Callbacks in numbers: for a message that p published n times, a callback runs at t n times for each
   * active entry (t, p, id) that names it, if t is p itself or a registered task; otherwise never.
   */
  lemma CallbacksCounted(c: Config, acts: seq<Action>, p: TaskId, t: TaskId, m: Msg, cb: Callback)
    requires ForwardIndex(c.rows, c.fwd) && Runs(c, Start(c), acts) && FlagsFixed(acts)
    requires Quiescent(Exec(c, Start(c), acts)) && (p != t ==> Refusals(c, Start(c), acts, p, t) == 0)
    requires p < c.tasks.mux && t < c.tasks.mux && m.publisher == p
    ensures multiset(Exec(c, Start(c), acts).log[t])[Call(cb, m)]
         == if t == p || t in c.tasks.live
            then multiset(Published(acts, p))[m]
                 * Count(c.rows, (e: Entry) => e.sub == t && e.pub == p && e.id == m.id && e.cb == Some(cb) && e.active)
            else 0
  {
    hide Count, FromPub, Published, AllEvents, Refusals, Delivered, ForwardIndex;
    var s := Exec(c, Start(c), acts);
    var names := (e: Entry) => e.sub == t && e.pub == p && e.id == m.id && e.cb == Some(cb) && e.active;
    LogsAreIndexedTraces(c, acts, t);
    CountEvents(c, t, s.taken[t], m, cb);
    CountSome(c.rows, names);
    if t == p {
      AllServed(c, acts, p);
      OwnMailIsPublished(c, acts, p);
      CountFromPub(s.arrived[p], m);
    } else {
      CopiesCounted(c, acts, p, t, m);
    }
  }
}
