/**
 * Execution dedup: concurrent calls of one function with canonically equal params share one execution. Functions,
 * executions, callers and results are known by number. Between two events of the environment nothing happens:
 * a promise that has settled first delivers, aborts and cleans up in whatever order the queue brings.
 */
module Dedupe {
  import opened Options
  import opened Text
  import opened Canonical

  /** Params as the coordinator finds them: a value in the heap of the moment of the call. */
  datatype Params = Params(heap: Heap, value: Val)

  ghost function KeyOf(p: Params): Option<JsString> {
    if WellFormed(p.heap) then Canon(p.heap, p.value, {}, 0) else None
  }

  /** `Cancelled` is the rejection of a function that saw the signal it was given abort. */
  datatype Result = Resolved(value: nat) | Rejected(reason: nat) | Cancelled

  /** A signal handed in by callers, who may share one, or that of the controller made for an execution. */
  datatype Signal = Callers(id: nat) | Controller(execution: nat)

  /** `signal` is the one its function was invoked with; `cleaned` once its `finally` handler has run. */
  datatype Execution = Execution(
    fn: nat, params: Params, key: Option<JsString>, signal: Signal, result: Option<Result>, cleaned: bool)

  datatype Answer = Waiting | Delivered(result: Result) | Aborted
  datatype Caller = Caller(fn: nat, params: Params, signal: Signal, execution: nat, answer: Answer)

  /** `aborted` are the signals that have been aborted. */
  datatype Coordination = Coordination(
    registry: map<nat, map<JsString, nat>>, executions: seq<Execution>, callers: seq<Caller>, aborted: set<Signal>)

  datatype Event =
    | Call(fn: nat, params: Params, id: nat)
    | Settle(execution: nat, result: Result)
    | Cleanup(execution: nat)
    | Deliver(caller: nat)
    | Abort(id: nat)

  function Registered(registry: map<nat, map<JsString, nat>>, fn: nat, key: JsString): Option<nat> {
    if fn in registry && key in registry[fn] then Some(registry[fn][key]) else None
  }

  function EntriesOf(registry: map<nat, map<JsString, nat>>, fn: nat): map<JsString, nat> {
    if fn in registry then registry[fn] else map[]
  }

  /**
   * A call whose signal is already aborted is rejected at once, but starts or joins an execution all the same. A
   * keyed execution runs under a controller of its own, an unkeyed one under the signal of its caller.
   */
  function DoCall(s: Coordination, fn: nat, params: Params, key: Option<JsString>, signal: Signal): Coordination {
    var answer := if signal in s.aborted then Aborted else Waiting;
    var x := |s.executions|;
    if key.None? then
      s.(executions := s.executions + [Execution(fn, params, None, signal, None, false)],
         callers := s.callers + [Caller(fn, params, signal, x, answer)])
    else if Registered(s.registry, fn, key.value).Some? then
      s.(callers := s.callers + [Caller(fn, params, signal, Registered(s.registry, fn, key.value).value, answer)])
    else
      s.(registry := s.registry[fn := EntriesOf(s.registry, fn)[key.value := x]],
         executions := s.executions + [Execution(fn, params, key, Controller(x), None, false)],
         callers := s.callers + [Caller(fn, params, signal, x, answer)])
  }

  function GivenUp(caller: Caller, signal: Signal): Caller {
    if caller.signal == signal && caller.answer.Waiting? then caller.(answer := Aborted) else caller
  }

  /** Every caller still waiting under the signal is rejected; whoever runs under it may now be cancelled. */
  function DoAbort(s: Coordination, signal: Signal): Coordination {
    s.(aborted := s.aborted + {signal},
       callers := seq(|s.callers|, i requires 0 <= i < |s.callers| => GivenUp(s.callers[i], signal)))
  }

  ghost predicate Enabled(s: Coordination, e: Event) {
    match e
    case Call(_, params, _) => WellFormed(params.heap)
    case Settle(x, result) =>
      && x < |s.executions| && s.executions[x].result.None?
      && (result.Cancelled? ==> s.executions[x].signal in s.aborted)
    case Cleanup(x) =>
      x < |s.executions| && s.executions[x].key.Some? && s.executions[x].result.Some? && !s.executions[x].cleaned
    case Deliver(c) =>
      && c < |s.callers| && s.callers[c].answer.Waiting? && s.callers[c].execution < |s.executions|
      && s.executions[s.callers[c].execution].result.Some?
    case Abort(_) => true
  }

  ghost function Step(s: Coordination, e: Event): Coordination
    requires Enabled(s, e)
  {
    match e
    case Call(fn, params, id) => DoCall(s, fn, params, KeyOf(params), Callers(id))
    case Settle(x, result) => s.(executions := s.executions[x := s.executions[x].(result := Some(result))])
    case Cleanup(x) => DoCleanup(s, x)
    case Deliver(c) =>
      var result := s.executions[s.callers[c].execution].result.value;
      s.(callers := s.callers[c := s.callers[c].(answer := Delivered(result))])
    case Abort(id) => DoAbort(s, Callers(id))
  }

  /** `settledEntries.delete(key)`: by key, whatever is registered under it. */
  function DoCleanup(s: Coordination, x: nat): Coordination
    requires x < |s.executions| && s.executions[x].key.Some?
  {
    var exec := s.executions[x];
    s.(registry := s.registry[exec.fn := EntriesOf(s.registry, exec.fn) - {exec.key.value}],
       executions := s.executions[x := exec.(cleaned := true)])
  }

  ghost function Run(s: Coordination, events: seq<Event>): Coordination {
    if events == [] then s
    else
      var before := Run(s, events[..|events| - 1]);
      if Enabled(before, events[|events| - 1]) then Step(before, events[|events| - 1]) else before
  }

  const EMPTY := Coordination(map[], [], [], {})

  /* ---- what every run keeps ---- */

  /** Each entry leads to its execution, which has not cleaned up yet. */
  ghost predicate EntriesLive(s: Coordination) {
    forall fn, key | Registered(s.registry, fn, key).Some? ::
      var x := Registered(s.registry, fn, key).value;
      x < |s.executions| && s.executions[x].fn == fn && s.executions[x].key == Some(key) && !s.executions[x].cleaned
  }

  /** Each execution under a key is registered until it cleans up. */
  ghost predicate Listed(s: Coordination) {
    forall x | 0 <= x < |s.executions| && s.executions[x].key.Some? && !s.executions[x].cleaned ::
      Registered(s.registry, s.executions[x].fn, s.executions[x].key.value) == Some(x)
  }

  ghost predicate KeysTrue(s: Coordination) {
    forall x | 0 <= x < |s.executions| ::
      WellFormed(s.executions[x].params.heap) && s.executions[x].key == KeyOf(s.executions[x].params)
  }

  /**
   * A keyed execution runs under its own controller, and only signals of callers are ever aborted. What was
   * cancelled ran under an aborted signal.
   */
  ghost predicate SignalsApart(s: Coordination) {
    && (forall signal | signal in s.aborted :: signal.Callers?)
    && (forall x | 0 <= x < |s.executions| && s.executions[x].key.Some? :: s.executions[x].signal == Controller(x))
    && (forall x | 0 <= x < |s.executions| && s.executions[x].result == Some(Cancelled) ::
          s.executions[x].signal in s.aborted)
  }

  /**
   * A caller waits on an execution of its own function, under its own key; an unkeyed one is started by it alone,
   * with its signal.
   */
  ghost predicate CallersPlaced(s: Coordination) {
    forall c | 0 <= c < |s.callers| ::
      var caller := s.callers[c];
      && caller.execution < |s.executions|
      && s.executions[caller.execution].fn == caller.fn
      && s.executions[caller.execution].key == KeyOf(caller.params)
      && (s.executions[caller.execution].key.None? ==>
          && s.executions[caller.execution].params == caller.params
          && s.executions[caller.execution].signal == caller.signal
          && forall d | 0 <= d < |s.callers| && d != c :: s.callers[d].execution != caller.execution)
      && (caller.answer.Delivered? ==> s.executions[caller.execution].result == Some(caller.answer.result))
  }

  ghost predicate Coherent(s: Coordination) {
    EntriesLive(s) && Listed(s) && KeysTrue(s) && SignalsApart(s) && CallersPlaced(s)
  }

  lemma CallKeepsCoherent(s: Coordination, fn: nat, params: Params, signal: Signal)
    requires Coherent(s) && WellFormed(params.heap)
    ensures Coherent(DoCall(s, fn, params, KeyOf(params), signal))
  {
    var key := KeyOf(params);
    if key.Some? && Registered(s.registry, fn, key.value).Some? {
      JoiningCall(s, fn, params, signal);
    } else if key.Some? {
      StartedEntries(s, fn, params, signal);
      StartedCallers(s, fn, params, signal);
    }
  }

  lemma JoiningCall(s: Coordination, fn: nat, params: Params, signal: Signal)
    requires Coherent(s) && KeyOf(params).Some? && Registered(s.registry, fn, KeyOf(params).value).Some?
    ensures Coherent(DoCall(s, fn, params, KeyOf(params), signal))
  {
  }

  lemma StartedEntries(s: Coordination, fn: nat, params: Params, signal: Signal)
    requires Coherent(s) && WellFormed(params.heap)
    requires KeyOf(params).Some? && Registered(s.registry, fn, KeyOf(params).value).None?
    ensures var next := DoCall(s, fn, params, KeyOf(params), signal);
            EntriesLive(next) && Listed(next) && KeysTrue(next) && SignalsApart(next)
  {
    var key, next := KeyOf(params).value, DoCall(s, fn, params, KeyOf(params), signal);
    forall f, k ensures Registered(next.registry, f, k) ==
      (if f == fn && k == key then Some(|s.executions|) else Registered(s.registry, f, k)) {}
  }

  lemma StartedCallers(s: Coordination, fn: nat, params: Params, signal: Signal)
    requires CallersPlaced(s) && KeyOf(params).Some? && Registered(s.registry, fn, KeyOf(params).value).None?
    ensures CallersPlaced(DoCall(s, fn, params, KeyOf(params), signal))
  {
    var next := DoCall(s, fn, params, KeyOf(params), signal);
    assert forall x | 0 <= x < |s.executions| :: next.executions[x] == s.executions[x];
    assert forall c | 0 <= c < |s.callers| :: next.callers[c] == s.callers[c];
  }

  lemma CleanupKeepsCoherent(s: Coordination, x: nat)
    requires Coherent(s) && Enabled(s, Cleanup(x))
    ensures Coherent(DoCleanup(s, x))
  {
    var exec, next := s.executions[x], DoCleanup(s, x);
    forall f, k ensures Registered(next.registry, f, k) ==
      (if f == exec.fn && k == exec.key.value then None else Registered(s.registry, f, k)) {}
    assert Registered(s.registry, exec.fn, exec.key.value) == Some(x);
  }

  lemma AbortKeepsCoherent(s: Coordination, id: nat)
    requires Coherent(s)
    ensures Coherent(DoAbort(s, Callers(id)))
  {
  }

  lemma StepKeepsCoherent(s: Coordination, e: Event)
    requires Coherent(s) && Enabled(s, e)
    ensures Coherent(Step(s, e))
  {
    match e
    case Call(fn, params, id) => CallKeepsCoherent(s, fn, params, Callers(id));
    case Settle(_, _) =>
    case Cleanup(x) => CleanupKeepsCoherent(s, x);
    case Deliver(_) =>
    case Abort(id) => AbortKeepsCoherent(s, id);
  }

  lemma {:induction false} AlwaysCoherent(events: seq<Event>)
    ensures Coherent(Run(EMPTY, events))
  {
    if events != [] {
      var before := Run(EMPTY, events[..|events| - 1]);
      AlwaysCoherent(events[..|events| - 1]);
      if Enabled(before, events[|events| - 1]) { StepKeepsCoherent(before, events[|events| - 1]); }
    }
  }

  /* ---- main results ---- */

  /**
   * In every reachable state a function and a canonical key have at most one execution that is running or has yet
   * to clean up.
   */
  lemma AtMostOneExecution(events: seq<Event>, x: nat, y: nat)
    requires var s := Run(EMPTY, events);
             && x < |s.executions| && y < |s.executions|
             && s.executions[x].fn == s.executions[y].fn
             && s.executions[x].key.Some? && s.executions[x].key == s.executions[y].key
             && !s.executions[x].cleaned && !s.executions[y].cleaned
    ensures x == y
  {
    AlwaysCoherent(events);
  }

  /**
   * Cleanup deletes by key, yet in every reachable state it removes the entry of the very execution that settled
   * and no other entry, of any function.
   */
  lemma CleanupRemovesOnlyItsOwn(events: seq<Event>, x: nat, fn: nat, key: JsString)
    requires Enabled(Run(EMPTY, events), Cleanup(x))
    ensures var s := Run(EMPTY, events);
            Registered(Step(s, Cleanup(x)).registry, fn, key)
            == if Registered(s.registry, fn, key) == Some(x) then None else Registered(s.registry, fn, key)
  {
    AlwaysCoherent(events);
    CleanupInState(Run(EMPTY, events), x, fn, key);
  }

  lemma CleanupInState(s: Coordination, x: nat, fn: nat, key: JsString)
    requires Listed(s) && EntriesLive(s) && Enabled(s, Cleanup(x))
    ensures Registered(DoCleanup(s, x).registry, fn, key)
            == if Registered(s.registry, fn, key) == Some(x) then None else Registered(s.registry, fn, key)
  {
    assert Registered(s.registry, s.executions[x].fn, s.executions[x].key.value) == Some(x);
  }

  /**
   * A caller is answered with the result of an execution of its function on structurally equal params: if its own
   * params denote `t`, so do those the execution was started with.
   */
  lemma AnswersFitTheParams(events: seq<Event>, c: nat)
    requires var s := Run(EMPTY, events);
             c < |s.callers| && s.callers[c].answer.Delivered? && KeyOf(s.callers[c].params).Some?
    ensures var s := Run(EMPTY, events);
            var x, mine := s.callers[c].execution, s.callers[c].params;
            && x < |s.executions|
            && s.executions[x].result == Some(s.callers[c].answer.result)
            && s.executions[x].fn == s.callers[c].fn
            && var its := s.executions[x].params;
               forall t: Tree, u: Tree ::
                 Denotes(mine.heap, mine.value, t) && Denotes(its.heap, its.value, u) ==> t == u
  {
    AlwaysCoherent(events);
    var s := Run(EMPTY, events);
    var mine, its := s.callers[c].params, s.executions[s.callers[c].execution].params;
    assert KeyOf(mine) == KeyOf(its);
    forall t: Tree, u: Tree | Denotes(mine.heap, mine.value, t) && Denotes(its.heap, its.value, u) ensures t == u {
      EqualEncodingsMeanEqualValues(mine.heap, mine.value, t, its.heap, its.value, u);
    }
  }

  /** A caller whose params have no canonical form is answered by an execution started for it and shared with no one. */
  lemma UnkeyedCallsAreNeverShared(events: seq<Event>, c: nat, d: nat)
    requires var s := Run(EMPTY, events);
             c < |s.callers| && d < |s.callers| && c != d && KeyOf(s.callers[c].params).None?
    ensures var s := Run(EMPTY, events);
            s.callers[c].execution != s.callers[d].execution
  {
    AlwaysCoherent(events);
  }

  /**
   * A call with params that denote the same bounded tree as those of an execution of its function that is running, or
   * has yet to clean up, joins that execution and starts none.
   */
  lemma EqualParamsShare(events: seq<Event>, x: nat, params: Params, id: nat, t: Tree)
    requires var s := Run(EMPTY, events);
             && x < |s.executions| && !s.executions[x].cleaned && WellFormed(params.heap) && Fits(t, 0)
             && Denotes(params.heap, params.value, t)
             && Denotes(s.executions[x].params.heap, s.executions[x].params.value, t)
    ensures var s := Run(EMPTY, events);
            var next := Step(s, Call(s.executions[x].fn, params, id));
            next.executions == s.executions && next.callers[|s.callers|].execution == x
  {
    AlwaysCoherent(events);
    var s := Run(EMPTY, events);
    DenotedEncodable(params.heap, params.value, t);
    forall p | p == params || p == s.executions[x].params ensures KeyOf(p) == Some(Encode(t)) {
      assert Renders(p.heap, p.value, t, Encode(t));
      CanonicalizeMeaning(p.heap, p.value, Encode(t));
    }
    assert Registered(s.registry, s.executions[x].fn, s.executions[x].key.value) == Some(x);
  }

  /* ---- callers and results come from the events ---- */

  /** The calls of a run that were made on a heap. */
  ghost function CallsOf(events: seq<Event>): seq<Event> {
    if events == [] then []
    else
      var e := events[|events| - 1];
      CallsOf(events[..|events| - 1]) + if e.Call? && WellFormed(e.params.heap) then [e] else []
  }

  /** In every reachable state each call has its caller, in order, with its function, params and signal. */
  lemma {:induction false} CallersAreTheCalls(events: seq<Event>)
    ensures var callers, calls := Run(EMPTY, events).callers, CallsOf(events);
            && |callers| == |calls|
            && forall c | 0 <= c < |calls| ::
                 && callers[c].signal.Callers?
                 && calls[c] == Call(callers[c].fn, callers[c].params, callers[c].signal.id)
  {
    if events != [] {
      var rest, e := events[..|events| - 1], events[|events| - 1];
      var s := Run(EMPTY, rest);
      CallersAreTheCalls(rest);
      assert Run(EMPTY, events) == Next(s, e);
      if !e.Call? {
        assert |Next(s, e).callers| == |s.callers| && CallsOf(events) == CallsOf(rest);
      }
    }
  }

  ghost predicate AllSettled(executions: seq<Execution>, events: seq<Event>) {
    forall x: nat | x < |executions| && executions[x].result.Some? :: Settle(x, executions[x].result.value) in events
  }

  /** And no execution has a result but one it settled with. */
  lemma {:induction false} ResultsWereSettled(events: seq<Event>)
    ensures AllSettled(Run(EMPTY, events).executions, events)
  {
    if events != [] {
      var rest, e := events[..|events| - 1], events[|events| - 1];
      assert events == rest + [e];
      ResultsWereSettled(rest);
    }
  }

  /** Whoever waits when its execution's promise delivers is answered with what the execution settled with. */
  lemma DeliveryAnswers(events: seq<Event>, c: nat)
    requires Enabled(Run(EMPTY, events), Deliver(c))
    ensures var s := Run(EMPTY, events);
            var answer := Step(s, Deliver(c)).callers[c].answer;
            answer.Delivered? && Settle(s.callers[c].execution, answer.result) in events
  {
    ResultsWereSettled(events);
  }

  /* ---- aborting rejects at once, and only those who wait ---- */

  /** Nobody waits under a signal that was aborted; and nobody is rejected as aborted whose signal was not. */
  ghost predicate AnswersFitTheAborts(callers: seq<Caller>, events: seq<Event>) {
    forall c | 0 <= c < |callers| ::
      && callers[c].signal.Callers?
      && (Abort(callers[c].signal.id) in events ==> !callers[c].answer.Waiting?)
      && (callers[c].answer.Aborted? ==> Abort(callers[c].signal.id) in events)
  }

  /**
   * In every reachable state the signals aborted are those some event aborted, no caller who has one of them still
   * waits -- whether it was aborted before the call, during it or after -- and no other caller was rejected for it.
   */
  lemma {:induction false} AbortRejectsItsCallers(events: seq<Event>)
    ensures forall id :: Callers(id) in Run(EMPTY, events).aborted <==> Abort(id) in events
    ensures AnswersFitTheAborts(Run(EMPTY, events).callers, events)
  {
    if events != [] {
      var rest, e := events[..|events| - 1], events[|events| - 1];
      assert events == rest + [e];
      AbortRejectsItsCallers(rest);
    }
  }

  /** The caller is as it was, or it has been answered. */
  ghost predicate Answered(was: Caller, now: Caller) {
    now == was || (was.answer.Waiting? && now.(answer := Waiting) == was)
  }

  lemma StepAnswers(s: Coordination, e: Event, c: nat)
    requires c < |s.callers|
    ensures c < |Next(s, e).callers| && Answered(s.callers[c], Next(s, e).callers[c])
  {
  }

  /** A caller stays as it is but for its answer, and once it is answered for good: no abort takes a result back. */
  lemma {:induction false} AnswersAreFinal(events: seq<Event>, more: seq<Event>, c: nat)
    requires c < |Run(EMPTY, events).callers|
    ensures c < |Run(EMPTY, events + more).callers|
    ensures Answered(Run(EMPTY, events).callers[c], Run(EMPTY, events + more).callers[c])
  {
    if more == [] {
      assert events + more == events;
    } else {
      var n, all := |more| - 1, events + more;
      AnswersAreFinal(events, more[..n], c);
      assert all[..|all| - 1] == events + more[..n];
      StepAnswers(Run(EMPTY, events + more[..n]), all[|all| - 1], c);
    }
  }

  /* ---- aborting is private ---- */

  /**
   * No abort reaches a shared execution: the signal a keyed execution runs under is never aborted, so it is never
   * cancelled, whoever gave up waiting for it.
   */
  lemma SharedExecutionsAreNeverCancelled(events: seq<Event>, x: nat)
    requires x < |Run(EMPTY, events).executions| && Run(EMPTY, events).executions[x].key.Some?
    ensures var s := Run(EMPTY, events);
            s.executions[x].signal !in s.aborted && s.executions[x].result != Some(Cancelled)
  {
    AlwaysCoherent(events);
  }

  /** An unkeyed execution that was cancelled ran under the signal of its one caller, and that signal was aborted. */
  lemma CancelledByItsCaller(events: seq<Event>, c: nat)
    requires var s := Run(EMPTY, events);
             && c < |s.callers| && s.callers[c].execution < |s.executions|
             && s.executions[s.callers[c].execution].result == Some(Cancelled)
    ensures var s := Run(EMPTY, events);
            && s.callers[c].signal in s.aborted && KeyOf(s.callers[c].params).None?
            && forall d | 0 <= d < |s.callers| && d != c :: s.callers[d].execution != s.callers[c].execution
  {
    AlwaysCoherent(events);
    assert Run(EMPTY, events).executions[Run(EMPTY, events).callers[c].execution].key.None?;
  }

  /** The executions agree but for the result of one that runs under `signal`. */
  ghost predicate ExecutionsAgree(a: seq<Execution>, b: seq<Execution>, signal: Signal) {
    && |a| == |b|
    && forall x | 0 <= x < |a| ::
         if a[x].signal == signal then a[x].(result := None) == b[x].(result := None) else a[x] == b[x]
  }

  /** The callers agree but for the answer to one that has the signal. */
  ghost predicate CallersAgree(a: seq<Caller>, b: seq<Caller>, signal: Signal) {
    && |a| == |b|
    && forall c | 0 <= c < |a| ::
         if a[c].signal == signal then a[c].(answer := Waiting) == b[c].(answer := Waiting) else a[c] == b[c]
  }

  /** The states agree on everything but what the holders of `signal` were told and what ran under it. */
  ghost predicate AgreeExcept(a: Coordination, b: Coordination, signal: Signal) {
    && a.registry == b.registry
    && ExecutionsAgree(a.executions, b.executions, signal)
    && CallersAgree(a.callers, b.callers, signal)
    && a.aborted - {signal} == b.aborted - {signal}
  }

  function WithoutAborts(events: seq<Event>, id: nat): seq<Event> {
    if events == [] then []
    else
      var rest, e := WithoutAborts(events[..|events| - 1], id), events[|events| - 1];
      if e == Abort(id) then rest else rest + [e]
  }

  ghost function Next(s: Coordination, e: Event): Coordination {
    if Enabled(s, e) then Step(s, e) else s
  }

  lemma CallAgrees(a: Coordination, b: Coordination, fn: nat, params: Params, mine: Signal, signal: Signal)
    requires AgreeExcept(a, b, signal)
    ensures AgreeExcept(DoCall(a, fn, params, KeyOf(params), mine), DoCall(b, fn, params, KeyOf(params), mine), signal)
  {
    if mine != signal {
      assert mine in a.aborted <==> mine in a.aborted - {signal};
      assert mine in b.aborted <==> mine in b.aborted - {signal};
    }
  }

  lemma SettleAgrees(a: Coordination, b: Coordination, x: nat, result: Result, signal: Signal)
    requires AgreeExcept(a, b, signal)
    ensures AgreeExcept(Next(a, Settle(x, result)), Next(b, Settle(x, result)), signal)
  {
    if x < |a.executions| {
      var s := a.executions[x].signal;
      assert a.executions[x].(result := None).signal == s && b.executions[x].(result := None).signal == s;
      if s != signal {
        assert s in a.aborted <==> s in a.aborted - {signal};
        assert s in b.aborted <==> s in b.aborted - {signal};
      }
    }
  }

  /** Whoever has another signal waits on an execution under another signal. */
  lemma DeliverAgrees(a: Coordination, b: Coordination, c: nat, id: nat)
    requires Coherent(a) && Coherent(b) && AgreeExcept(a, b, Callers(id))
    ensures AgreeExcept(Next(a, Deliver(c)), Next(b, Deliver(c)), Callers(id))
  {
    if c < |a.callers| {
      assert a.callers[c].(answer := Waiting).signal == b.callers[c].(answer := Waiting).signal;
      if a.callers[c].signal != Callers(id) {
        var x := a.callers[c].execution;
        assert a.executions[x] == b.executions[x];
      }
    }
  }

  lemma OtherAbortAgrees(a: Coordination, b: Coordination, other: Signal, signal: Signal)
    requires AgreeExcept(a, b, signal) && other != signal
    ensures AgreeExcept(DoAbort(a, other), DoAbort(b, other), signal)
  {
    assert a.aborted + {other} - {signal} == a.aborted - {signal} + {other};
    assert b.aborted + {other} - {signal} == b.aborted - {signal} + {other};
    forall c | 0 <= c < |a.callers|
      ensures a.callers[c].signal == b.callers[c].signal
    {
      assert a.callers[c].(answer := Waiting).signal == b.callers[c].(answer := Waiting).signal;
    }
  }

  lemma AbortAgrees(a: Coordination, b: Coordination, id: nat)
    requires AgreeExcept(a, b, Callers(id))
    ensures AgreeExcept(DoAbort(a, Callers(id)), b, Callers(id))
  {
  }

  /**
   * Aborting a signal is private to the callers who hold it. The run without the aborts of that signal ends with
   * the same registry, the same executions but for what ran under the signal itself, and the same answer for every
   * caller with another signal -- even though an abort can make a function reject.
   */
  lemma {:induction false} AbortIsPrivate(events: seq<Event>, id: nat)
    ensures AgreeExcept(Run(EMPTY, events), Run(EMPTY, WithoutAborts(events, id)), Callers(id))
  {
    if events != [] {
      var n := |events| - 1;
      var e, rest := events[n], WithoutAborts(events[..n], id);
      AbortIsPrivate(events[..n], id);
      if e == Abort(id) {
        AbortAgrees(Run(EMPTY, events[..n]), Run(EMPTY, rest), id);
      } else {
        AlwaysCoherent(events[..n]);
        AlwaysCoherent(rest);
        var a, b := Run(EMPTY, events[..n]), Run(EMPTY, rest);
        match e {
          case Call(fn, params, mine) => CallAgrees(a, b, fn, params, Callers(mine), Callers(id));
          case Settle(x, result) => SettleAgrees(a, b, x, result, Callers(id));
          case Cleanup(x) =>
          case Deliver(c) => DeliverAgrees(a, b, c, id);
          case Abort(other) => OtherAbortAgrees(a, b, Callers(other), Callers(id));
        }
        assert (rest + [e])[..|rest|] == rest;
      }
    }
  }

  /* ---- the object ---- */

  class Coordinator {
    var executionRegistry: map<nat, map<JsString, nat>>
    var executions: seq<Execution>
    var callers: seq<Caller>
    var abortedSignals: set<Signal>

    ghost function View(): Coordination
      reads this
    {
      Coordination(executionRegistry, executions, callers, abortedSignals)
    }

    constructor ()
      ensures View() == EMPTY
    {
      executionRegistry, executions, callers, abortedSignals := map[], [], [], {};
    }

    /** The caller waits for the execution it is told; `started` when `fn` was invoked for it. */
    method DedupeCall(fn: nat, params: Params, id: nat) returns (caller: nat, started: bool)
      requires WellFormed(params.heap) && Coherent(View())
      modifies this
      ensures Coherent(View()) && View() == Step(old(View()), Call(fn, params, id))
      ensures caller == |old(callers)| && started == (|executions| > |old(executions)|)
    {
      var signal := Callers(id);
      CallKeepsCoherent(View(), fn, params, signal);
      caller := |callers|;
      var answer := if signal in abortedSignals then Aborted else Waiting;
      var key := Canonicalize(params.heap, params.value);
      if key.None? {
        executions := executions + [Execution(fn, params, None, signal, None, false)];
        callers := callers + [Caller(fn, params, signal, |executions| - 1, answer)];
        return caller, true;
      }
      var existing := Registered(executionRegistry, fn, key.value);
      if existing.Some? {
        callers := callers + [Caller(fn, params, signal, existing.value, answer)];
        return caller, false;
      }
      var execution: nat := |executions|;
      var controller := Controller(execution);
      executions := executions + [Execution(fn, params, key, controller, None, false)];
      var entries: map<JsString, nat> := EntriesOf(executionRegistry, fn);
      entries := entries[key.value := execution];
      executionRegistry := executionRegistry[fn := entries];
      callers := callers + [Caller(fn, params, signal, execution, answer)];
      started := true;
    }

    /** The `abort` listeners of a signal: each rejects its own caller and leaves the promise it waits for alone. */
    method OnAbort(id: nat)
      requires Coherent(View())
      modifies this
      ensures Coherent(View()) && View() == Step(old(View()), Abort(id))
      ensures |callers| == |old(callers)|
      ensures forall c | 0 <= c < |callers| ::
                callers[c].answer == if callers[c].signal == Callers(id) && old(callers)[c].answer.Waiting? then Aborted
                                     else old(callers)[c].answer
    {
      AbortKeepsCoherent(View(), id);
      ghost var was := View();
      abortedSignals := abortedSignals + {Callers(id)};
      callers := GiveUp(callers, Callers(id));
      assert callers == DoAbort(was, Callers(id)).callers;
    }

    static method GiveUp(waiting: seq<Caller>, signal: Signal) returns (answered: seq<Caller>)
      ensures |answered| == |waiting| && forall i | 0 <= i < |waiting| :: answered[i] == GivenUp(waiting[i], signal)
    {
      answered := [];
      for i := 0 to |waiting|
        invariant |answered| == i && forall k | 0 <= k < i :: answered[k] == GivenUp(waiting[k], signal)
      {
        answered := answered + [GivenUp(waiting[i], signal)];
      }
    }

    /** The `finally` handler of an execution. */
    method CleanUp(x: nat)
      requires Coherent(View()) && Enabled(View(), Cleanup(x))
      modifies this
      ensures Coherent(View()) && View() == Step(old(View()), Cleanup(x))
    {
      CleanupKeepsCoherent(View(), x);
      var exec := executions[x];
      executionRegistry := executionRegistry[exec.fn := EntriesOf(executionRegistry, exec.fn) - {exec.key.value}];
      executions := executions[x := exec.(cleaned := true)];
    }
  }
}
