/**
 * Shared subscriptions: consumers of one subscribe function share one transport, torn down when the last of them
 * releases. Functions, handlers and transports are known by number; a handler object that is acquired twice is
 * the same number twice.
 */
module Subscriptions {
  datatype Status = Connecting | Connected | Reconnecting | Disconnected | Failing

  /** The registered entry of a function. `status` is the copy made when the entry was published. */
  datatype Entry = Entry(refCount: int, status: Status, transport: nat)

  /**
   * A transport that was opened. `reported` is the status its fan-out last recorded: the entry was copied from the
   * record the fan-out writes to, so the two statuses part ways as soon as the transport reports again. `consumers`
   * is the one set that the entry and the fan-out share; the fan-out keeps it when the entry is gone.
   */
  datatype Transport = Transport(fn: nat, reported: Status, consumers: set<nat>, teardowns: nat)

  /** A status handed to consumers: by the transport to all it has, or on joining to one. */
  datatype Notice = Notice(transport: nat, to: set<nat>, status: Status)

  /** `told` are the statuses handed out so far, in order. */
  datatype Sharing = Sharing(registry: map<nat, Entry>, transports: seq<Transport>, told: seq<Notice>)

  const EMPTY := Sharing(map[], [], [])

  /** Statuses a transport reports while it is being opened come before the entry is published. */
  datatype Event =
    | Acquire(fn: nat, handlers: nat, whileOpening: seq<Status>)
    | Release(fn: nat, handlers: nat)
    | Report(transport: nat, status: Status)

  function LastOr(statuses: seq<Status>, otherwise: Status): Status {
    if statuses == [] then otherwise else statuses[|statuses| - 1]
  }

  function Notices(transport: nat, to: set<nat>, statuses: seq<Status>): seq<Notice> {
    seq(|statuses|, i requires 0 <= i < |statuses| => Notice(transport, to, statuses[i]))
  }

  /** The consumers of a function's entry. */
  function ConsumersOf(s: Sharing, fn: nat): set<nat> {
    if fn in s.registry && s.registry[fn].transport < |s.transports|
    then s.transports[s.registry[fn].transport].consumers else {}
  }

  function DoAcquire(s: Sharing, fn: nat, handlers: nat, whileOpening: seq<Status>): Sharing {
    var newcomer := |s.transports|;
    if fn in s.registry && s.registry[fn].transport < newcomer then
      var e := s.registry[fn];
      var t := s.transports[e.transport];
      Sharing(s.registry[fn := e.(refCount := e.refCount + 1)],
              s.transports[e.transport := t.(consumers := t.consumers + {handlers})],
              s.told + [Notice(e.transport, {handlers}, e.status)])
    else
      var status := LastOr(whileOpening, Connecting);
      Sharing(s.registry[fn := Entry(1, status, newcomer)],
              s.transports + [Transport(fn, status, {handlers}, 0)],
              s.told + Notices(newcomer, {handlers}, whileOpening))
  }

  function DoRelease(s: Sharing, fn: nat, handlers: nat): Sharing {
    if handlers !in ConsumersOf(s, fn) then s
    else
      var e := s.registry[fn];
      var t := s.transports[e.transport];
      var left := t.(consumers := t.consumers - {handlers});
      if e.refCount - 1 <= 0 then
        s.(registry := s.registry - {fn},
           transports := s.transports[e.transport := left.(teardowns := t.teardowns + 1)])
      else
        s.(registry := s.registry[fn := e.(refCount := e.refCount - 1)],
           transports := s.transports[e.transport := left])
  }

  /** The fan-out of a transport reports to the consumers in its own set, whatever the registry holds by then. */
  function DoReport(s: Sharing, transport: nat, status: Status): Sharing {
    if transport >= |s.transports| then s
    else
      var t := s.transports[transport];
      s.(transports := s.transports[transport := t.(reported := status)],
         told := s.told + [Notice(transport, t.consumers, status)])
  }

  function Step(s: Sharing, e: Event): Sharing {
    match e
    case Acquire(fn, h, opening) => DoAcquire(s, fn, h, opening)
    case Release(fn, h) => DoRelease(s, fn, h)
    case Report(t, status) => DoReport(s, t, status)
  }

  function Run(events: seq<Event>): Sharing {
    if events == [] then EMPTY else Step(Run(events[..|events| - 1]), events[|events| - 1])
  }

  /* ---- the history of a function's consumers ---- */

  /** One step's effect on a function's consumers. */
  function ConsumersAfter(before: set<nat>, e: Event, fn: nat): set<nat> {
    match e
    case Acquire(f, h, _) => if f == fn then before + {h} else before
    case Release(f, h) => if f == fn then before - {h} else before
    case Report(_, _) => before
  }

  /** The handlers acquired for `fn` and not released since. */
  function Attached(events: seq<Event>, fn: nat): set<nat> {
    if events == [] then {} else ConsumersAfter(Attached(events[..|events| - 1], fn), events[|events| - 1], fn)
  }

  /** The event acquires `fn` with handlers that are attached to it already. */
  predicate IsRepeat(events: seq<Event>, e: Event, fn: nat) {
    e.Acquire? && e.fn == fn && e.handlers in Attached(events, fn)
  }

  /** How often that happened since the function's present entry was opened. */
  function Surplus(events: seq<Event>, fn: nat): nat {
    if events == [] || fn !in Run(events).registry then 0
    else
      var before := events[..|events| - 1];
      Surplus(before, fn) + if IsRepeat(before, events[|events| - 1], fn) then 1 else 0
  }

  /** Every acquire of `fn` passes handlers that are not attached to it. */
  ghost predicate FreshHandlers(events: seq<Event>, fn: nat) {
    forall i | 0 <= i < |events| :: !IsRepeat(events[..i], events[i], fn)
  }

  /* ---- what every run keeps ---- */

  ghost predicate Coherent(s: Sharing) {
    && (forall fn | fn in s.registry ::
      var e := s.registry[fn];
      && e.transport < |s.transports|
      && e.refCount >= |s.transports[e.transport].consumers| && e.refCount >= 1
      && s.transports[e.transport].fn == fn && s.transports[e.transport].teardowns == 0)
    && forall t | 0 <= t < |s.transports| :: TransportCoherent(s, s.transports[t], t)
  }

  /** Torn down at most once; until then registered, and from then on without consumers. */
  ghost predicate TransportCoherent(s: Sharing, t: Transport, at: nat) {
    && t.teardowns <= 1
    && (t.teardowns == 0 ==> t.fn in s.registry && s.registry[t.fn].transport == at)
    && (t.teardowns == 1 ==> t.consumers == {})
  }

  lemma StepKeepsCoherent(s: Sharing, e: Event)
    requires Coherent(s)
    ensures Coherent(Step(s, e))
  {
    match e
    case Acquire(fn, h, opening) => AcquireKeepsCoherent(s, fn, h, opening);
    case Release(fn, h) => ReleaseKeepsCoherent(s, fn, h);
    case Report(_, _) =>
  }

  lemma AcquireKeepsCoherent(s: Sharing, fn: nat, h: nat, opening: seq<Status>)
    requires Coherent(s)
    ensures Coherent(DoAcquire(s, fn, h, opening))
  {
    CardinalityOfAdded(ConsumersOf(s, fn), h);
    var next := DoAcquire(s, fn, h, opening);
    forall t | 0 <= t < |next.transports| ensures TransportCoherent(next, next.transports[t], t) {
      if t < |s.transports| { assert TransportCoherent(s, s.transports[t], t); }
    }
  }

  /** The count runs out no earlier than the consumers: whoever tears down leaves the set empty. */
  lemma ReleaseKeepsCoherent(s: Sharing, fn: nat, h: nat)
    requires Coherent(s)
    ensures Coherent(DoRelease(s, fn, h))
  {
    var consumers := ConsumersOf(s, fn);
    if h in consumers { assert |consumers - {h}| == |consumers| - 1; }
  }

  lemma CardinalityOfAdded(s: set<nat>, h: nat)
    ensures |s + {h}| <= |s| + 1
  {
    if h in s { assert s + {h} == s; }
  }

  lemma {:induction false} AlwaysCoherent(events: seq<Event>)
    ensures Coherent(Run(events))
  {
    if events != [] {
      AlwaysCoherent(events[..|events| - 1]);
      StepKeepsCoherent(Run(events[..|events| - 1]), events[|events| - 1]);
    }
  }

  /* ---- main results ---- */

  lemma AcquireConsumers(s: Sharing, f: nat, h: nat, opening: seq<Status>, fn: nat)
    requires Coherent(s)
    ensures ConsumersOf(DoAcquire(s, f, h, opening), fn) == ConsumersOf(s, fn) + if f == fn then {h} else {}
  {
    if f != fn && f in s.registry && fn in s.registry {
      assert s.registry[f].transport != s.registry[fn].transport;
    }
  }

  lemma ReleaseConsumers(s: Sharing, f: nat, h: nat, fn: nat)
    requires Coherent(s)
    ensures ConsumersOf(DoRelease(s, f, h), fn) == ConsumersOf(s, fn) - if f == fn then {h} else {}
  {
    if h in ConsumersOf(s, f) {
      assert |ConsumersOf(s, f) - {h}| == |ConsumersOf(s, f)| - 1;
      if f != fn && fn in s.registry { assert s.registry[f].transport != s.registry[fn].transport; }
    }
  }

  /** After any run the registered consumers are those attached by the history. */
  lemma {:induction false} ConsumersAreTheAttached(events: seq<Event>, fn: nat)
    ensures Attached(events, fn) == ConsumersOf(Run(events), fn)
  {
    if events != [] {
      var n := |events| - 1;
      AlwaysCoherent(events[..n]);
      ConsumersAreTheAttached(events[..n], fn);
      var s := Run(events[..n]);
      match events[n] {
        case Acquire(f, h, opening) => AcquireConsumers(s, f, h, opening, fn);
        case Release(f, h) => ReleaseConsumers(s, f, h, fn);
        case Report(_, _) =>
      }
    }
  }

  /** One step's effect on the count of consumers. */
  lemma RefCountStep(s: Sharing, e: Event, fn: nat, surplus: nat)
    requires Coherent(s) && (fn in s.registry ==> s.registry[fn].refCount == |ConsumersOf(s, fn)| + surplus)
    requires fn !in s.registry ==> surplus == 0
    ensures var next := Step(s, e);
            var repeat := e.Acquire? && e.fn == fn && e.handlers in ConsumersOf(s, fn);
            fn in next.registry ==>
              next.registry[fn].refCount == |ConsumersOf(next, fn)| + surplus + if repeat then 1 else 0
  {
    if e.Acquire? && e.fn == fn && e.handlers in ConsumersOf(s, fn) {
      assert ConsumersOf(s, fn) + {e.handlers} == ConsumersOf(s, fn);
    }
  }

  /** The reference count exceeds the number of attached consumers by exactly the repeated acquires. */
  lemma {:induction false} RefCountMeaning(events: seq<Event>, fn: nat)
    ensures var s := Run(events);
            && (fn in s.registry ==> s.registry[fn].refCount == |Attached(events, fn)| + Surplus(events, fn))
            && (fn !in s.registry ==> Surplus(events, fn) == 0)
  {
    if events != [] {
      var n := |events| - 1;
      AlwaysCoherent(events[..n]);
      ConsumersAreTheAttached(events[..n], fn);
      ConsumersAreTheAttached(events, fn);
      RefCountMeaning(events[..n], fn);
      RefCountStep(Run(events[..n]), events[n], fn, Surplus(events[..n], fn));
    }
  }

  lemma {:induction false} FreshHandlersHaveNoSurplus(events: seq<Event>, fn: nat)
    requires FreshHandlers(events, fn)
    ensures Surplus(events, fn) == 0
  {
    if events != [] {
      var n := |events| - 1;
      assert forall i | 0 <= i < n :: events[..n][..i] == events[..i];
      FreshHandlersHaveNoSurplus(events[..n], fn);
    }
  }

  /** The transports that have not been torn down. */
  function Open(s: Sharing): set<nat> {
    set t | 0 <= t < |s.transports| && s.transports[t].teardowns == 0
  }

  /**
   * At every moment each function has at most one open transport, and every transport has been torn down at most
   * once. A function has one open exactly while a consumer is attached to it -- or a repeated acquire is left over.
   */
  lemma OpenWhileAttached(events: seq<Event>, fn: nat)
    ensures var s := Run(events);
            && (forall t | 0 <= t < |s.transports| :: s.transports[t].teardowns <= 1)
            && (forall t, u | t in Open(s) && u in Open(s) && s.transports[t].fn == s.transports[u].fn :: t == u)
            && ((exists t | t in Open(s) :: s.transports[t].fn == fn) <==>
                Attached(events, fn) != {} || Surplus(events, fn) > 0)
  {
    var s := Run(events);
    AlwaysCoherent(events);
    ConsumersAreTheAttached(events, fn);
    RefCountMeaning(events, fn);
    if fn in s.registry {
      assert s.registry[fn].transport in Open(s);
      assert s.registry[fn].refCount >= 1;
    }
  }

  /** With fresh handlers on every acquire, a transport is open exactly while somebody is attached. */
  lemma FreshHandlersOpenExactlyWhileAttached(events: seq<Event>, fn: nat)
    requires FreshHandlers(events, fn)
    ensures var s := Run(events);
            && ((exists t | t in Open(s) :: s.transports[t].fn == fn) <==> Attached(events, fn) != {})
            && (fn in s.registry ==> s.registry[fn].refCount == |Attached(events, fn)|)
  {
    FreshHandlersHaveNoSurplus(events, fn);
    OpenWhileAttached(events, fn);
    RefCountMeaning(events, fn);
  }

  /**
   * Whatever a transport sends reaches the consumers in the set its fan-out closed over. While it is open those are
   * exactly the consumers attached to its function; once it is torn down there are none, although the set lives on.
   */
  lemma EventsReachTheAttached(events: seq<Event>, t: nat)
    requires t < |Run(events).transports|
    ensures var s := Run(events);
            s.transports[t].consumers
            == if s.transports[t].teardowns == 0 then Attached(events, s.transports[t].fn) else {}
  {
    AlwaysCoherent(events);
    assert TransportCoherent(Run(events), Run(events).transports[t], t);
    ConsumersAreTheAttached(events, Run(events).transports[t].fn);
  }

  predicate Acquires(e: Event, fn: nat, handlers: nat) {
    e.Acquire? && e.fn == fn && e.handlers == handlers
  }

  /** Releasing twice, or after the entry was torn down and rebuilt for others, changes nothing. */
  lemma ReleaseIsIdempotent(events: seq<Event>, between: seq<Event>, fn: nat, handlers: nat)
    requires forall i | 0 <= i < |between| :: !Acquires(between[i], fn, handlers)
    ensures Run(events + [Release(fn, handlers)] + between + [Release(fn, handlers)])
         == Run(events + [Release(fn, handlers)] + between)
  {
    var r := Release(fn, handlers);
    var before := events + [r] + between;
    assert (before + [r])[..|before|] == before;
    StaysDetached(events + [r], between, fn, handlers) by {
      assert (events + [r])[..|events|] == events;
    }
    ConsumersAreTheAttached(before, fn);
  }

  lemma {:induction false} StaysDetached(events: seq<Event>, between: seq<Event>, fn: nat, handlers: nat)
    requires handlers !in Attached(events, fn)
    requires forall i | 0 <= i < |between| :: !Acquires(between[i], fn, handlers)
    ensures handlers !in Attached(events + between, fn)
  {
    if between == [] {
      assert events + between == events;
    } else {
      var n := |between| - 1;
      StaysDetached(events, between[..n], fn, handlers);
      assert (events + between)[..|events + between| - 1] == events + between[..n];
      assert (events + between)[|events + between| - 1] == between[n];
    }
  }

  /** The same handlers acquired twice and released twice leave a transport open that nobody is attached to. */
  lemma RepeatedHandlersLeak(fn: nat, handlers: nat)
    ensures var a, r := Acquire(fn, handlers, []), Release(fn, handlers);
            var events := [a, a, r, r];
            && Attached(events, fn) == {} && Surplus(events, fn) == 1
            && Run(events).registry == map[fn := Entry(1, Connecting, 0)] && 0 in Open(Run(events))
  {
    var a, r := Acquire(fn, handlers, []), Release(fn, handlers);
    var e1, e2, e3, e4 := [a], [a, a], [a, a, r], [a, a, r, r];
    assert e1[..0] == [] && e2[..1] == e1 && e3[..2] == e2 && e4[..3] == e3;
    assert Run(e1).registry == map[fn := Entry(1, Connecting, 0)];
    assert Run(e1).transports == [Transport(fn, Connecting, {handlers}, 0)];
    assert {handlers} + {handlers} == {handlers};
    assert Run(e2).registry[fn] == Entry(2, Connecting, 0);
    assert Run(e2).transports == [Transport(fn, Connecting, {handlers}, 0)];
    assert Run(e3).registry[fn] == Entry(1, Connecting, 0);
    assert {handlers} - {handlers} == {};
    assert Run(e3).transports == [Transport(fn, Connecting, {}, 0)];
    assert Run(e4) == Run(e3);
    assert Attached(e1, fn) == {handlers} && Attached(e2, fn) == {handlers} && Attached(e3, fn) == {};
    assert Surplus(e1, fn) == 0 && Surplus(e2, fn) == 1 && Surplus(e3, fn) == 1;
  }

  /** Once acquired with handlers that were attached already, a transport stays open whatever is released later. */
  lemma {:induction false} SurplusCannotBeClosed(events: seq<Event>, more: seq<Event>, fn: nat)
    requires Surplus(events, fn) > 0
    ensures fn in Run(events + more).registry
    ensures Run(events + more).registry[fn].transport == Run(events).registry[fn].transport
    ensures Run(events).registry[fn].transport in Open(Run(events + more))
    ensures Surplus(events + more, fn) >= Surplus(events, fn)
  {
    if more == [] {
      assert events + more == events;
      AlwaysCoherent(events);
    } else {
      var n := |more| - 1;
      var all := events + more;
      SurplusCannotBeClosed(events, more[..n], fn);
      assert all[..|all| - 1] == events + more[..n];
      AlwaysCoherent(events + more[..n]);
      AlwaysCoherent(all);
      RefCountMeaning(events + more[..n], fn);
      RefCountStays(events + more[..n], all[|all| - 1], fn);
    }
  }

  lemma RefCountStays(events: seq<Event>, e: Event, fn: nat)
    requires fn in Run(events).registry && Coherent(Run(events)) && Surplus(events, fn) > 0
    requires Run(events).registry[fn].refCount == |Attached(events, fn)| + Surplus(events, fn)
    ensures fn in Step(Run(events), e).registry
    ensures Step(Run(events), e).registry[fn].transport == Run(events).registry[fn].transport
  {
    ConsumersAreTheAttached(events, fn);
  }

  /* ---- the status a late joiner is told ---- */

  /** What the transport of the function's present entry had reported last by the time it was opened. */
  function OpeningStatus(events: seq<Event>, fn: nat): Status {
    if events == [] then Connecting
    else
      var before, e := events[..|events| - 1], events[|events| - 1];
      if e.Acquire? && e.fn == fn && fn !in Run(before).registry
      then (if e.whileOpening == [] then Connecting else e.whileOpening[|e.whileOpening| - 1])
      else OpeningStatus(before, fn)
  }

  /** An entry is published with what its transport reported while it was opened, and its status stays at that. */
  lemma {:induction false} PublishedStatus(events: seq<Event>, fn: nat)
    requires fn in Run(events).registry
    ensures Run(events).registry[fn].status == OpeningStatus(events, fn)
  {
    var n := |events| - 1;
    AlwaysCoherent(events[..n]);
    if fn in Run(events[..n]).registry { PublishedStatus(events[..n], fn); }
  }

  /** The statuses a transport reported after its entry was published. */
  function ReportedSince(events: seq<Event>, transport: nat): seq<Status> {
    if events == [] then []
    else
      var before, e := ReportedSince(events[..|events| - 1], transport), events[|events| - 1];
      if e.Report? && e.transport == transport && transport < |Run(events[..|events| - 1]).transports|
      then before + [e.status] else before
  }

  /** The status the fan-out of the function's transport has recorded. */
  function RecordOf(s: Sharing, fn: nat): Status {
    if fn in s.registry && s.registry[fn].transport < |s.transports|
    then s.transports[s.registry[fn].transport].reported else Disconnected
  }

  lemma RecordStep(s: Sharing, e: Event, fn: nat)
    requires Coherent(s) && fn in s.registry && fn in Step(s, e).registry
    ensures Step(s, e).registry[fn].transport == s.registry[fn].transport
    ensures RecordOf(Step(s, e), fn)
         == if e.Report? && e.transport == s.registry[fn].transport then e.status else RecordOf(s, fn)
  {
  }

  /** The record is the status the transport was opened with, overwritten by what it reported since. */
  lemma {:induction false} RecordIsExplained(events: seq<Event>, fn: nat)
    requires fn in Run(events).registry
    ensures var since := ReportedSince(events, Run(events).registry[fn].transport);
            RecordOf(Run(events), fn) == if since == [] then OpeningStatus(events, fn) else since[|since| - 1]
  {
    var n := |events| - 1;
    var s := Run(events[..n]);
    AlwaysCoherent(events[..n]);
    if fn in s.registry {
      RecordIsExplained(events[..n], fn);
      RecordStep(s, events[n], fn);
    } else {
      NoReportsYet(events[..n], |s.transports|);
    }
  }

  /**
   * The statuses an event hands out. A consumer that opens a transport is told whatever it reports meanwhile; one that
   * joins is told, alone, the status the transport was opened with; and a report reaches those attached.
   */
  ghost function ToldBy(events: seq<Event>, e: Event): seq<Notice> {
    var s := Run(events);
    match e
    case Acquire(fn, h, opening) =>
      if fn in s.registry then [Notice(s.registry[fn].transport, {h}, OpeningStatus(events, fn))]
      else seq(|opening|, i requires 0 <= i < |opening| => Notice(|s.transports|, {h}, opening[i]))
    case Release(_, _) => []
    case Report(t, status) =>
      if t >= |s.transports| then []
      else [Notice(t, if s.transports[t].teardowns == 0 then Attached(events, s.transports[t].fn) else {}, status)]
  }

  /** After any run, an event hands out exactly these. */
  lemma WhoIsToldWhat(events: seq<Event>, e: Event)
    ensures Run(events + [e]).told == Run(events).told + ToldBy(events, e)
  {
    assert (events + [e])[..|events|] == events;
    AlwaysCoherent(events);
    match e
    case Acquire(fn, h, opening) => if fn in Run(events).registry { PublishedStatus(events, fn); }
    case Release(_, _) =>
    case Report(t, _) => if t < |Run(events).transports| { EventsReachTheAttached(events, t); }
  }

  /**
   * What a consumer that joins is told is the status its transport last reported exactly when the transport has
   * reported nothing since it was opened, or reported last the very status it was opened with.
   */
  lemma JoinersAreToldTheOpeningStatus(events: seq<Event>, fn: nat, handlers: nat, unused: seq<Status>)
    requires fn in Run(events).registry
    ensures var s, joined := Run(events), Run(events + [Acquire(fn, handlers, unused)]);
            var t, published := s.registry[fn].transport, OpeningStatus(events, fn);
            var since := ReportedSince(events, t);
            && joined.told == s.told + [Notice(t, {handlers}, published)]
            && t < |joined.transports|
            && (published == joined.transports[t].reported <==> since == [] || since[|since| - 1] == published)
  {
    WhoIsToldWhat(events, Acquire(fn, handlers, unused));
    assert (events + [Acquire(fn, handlers, unused)])[..|events|] == events;
    RecordIsExplained(events, fn);
    AlwaysCoherent(events);
  }

  lemma {:induction false} NoReportsYet(events: seq<Event>, transport: nat)
    requires transport >= |Run(events).transports|
    ensures ReportedSince(events, transport) == []
  {
    if events != [] {
      NoReportsYet(events[..|events| - 1], transport);
    }
  }

  /** A second consumer is told "connecting" although the transport has told the first that it is connected. */
  lemma StaleStatusForJoiner(fn: nat, first: nat, second: nat)
    ensures var s := Run([Acquire(fn, first, []), Report(0, Connected), Acquire(fn, second, [])]);
            && s.told == [Notice(0, {first}, Connected), Notice(0, {second}, Connecting)]
            && |s.transports| == 1 && s.transports[0].reported == Connected
  {
    var a, r, b := Acquire(fn, first, []), Report(0, Connected), Acquire(fn, second, []);
    assert [a][..0] == [] && [a, r][..1] == [a] && [a, r, b][..2] == [a, r];
    assert Run([a]) == Sharing(map[fn := Entry(1, Connecting, 0)], [Transport(fn, Connecting, {first}, 0)], []);
    assert Run([a, r]).told == [Notice(0, {first}, Connected)];
    assert Run([a, r]).registry[fn] == Entry(1, Connecting, 0);
  }

  /* ---- the object ---- */

  class SharedSubscriptions {
    var registry: map<nat, Entry>
    var transports: seq<Transport>
    var told: seq<Notice>

    function View(): Sharing
      reads this
    {
      Sharing(registry, transports, told)
    }

    constructor ()
      ensures View() == EMPTY
    {
      registry, transports, told := map[], [], [];
    }

    /** The first consumer opens the transport; a later one joins and is told the status of the entry. */
    method AcquireSubscription(fn: nat, handlers: nat, whileOpening: seq<Status>) returns (joined: bool)
      requires Coherent(View())
      modifies this
      ensures Coherent(View()) && View() == Step(old(View()), Acquire(fn, handlers, whileOpening))
      ensures joined == (fn in old(registry))
      ensures !joined ==>
                && registry[fn].status == (if whileOpening == [] then Connecting else whileOpening[|whileOpening| - 1])
                && registry[fn].transport == |old(transports)| < |transports|
                && transports[|old(transports)|].reported == registry[fn].status
    {
      ghost var next := DoAcquire(View(), fn, handlers, whileOpening);
      AcquireKeepsCoherent(View(), fn, handlers, whileOpening);
      joined := fn in registry;
      if joined {
        var entry := registry[fn];
        var t := transports[entry.transport];
        registry := registry[fn := entry.(refCount := entry.refCount + 1)];
        transports := transports[entry.transport := t.(consumers := t.consumers + {handlers})];
        told := told + [Notice(entry.transport, {handlers}, entry.status)];
      } else {
        var newcomer: nat := |transports|;
        var status := OpenTransport(newcomer, handlers, whileOpening);
        registry := registry[fn := Entry(1, status, newcomer)];
        transports := transports + [Transport(fn, status, {handlers}, 0)];
      }
      assert View() == next;
    }

    /** The fan-out at work while the transport is being opened; the status it has recorded at the end. */
    method OpenTransport(transport: nat, handlers: nat, whileOpening: seq<Status>) returns (status: Status)
      modifies `told
      ensures status == LastOr(whileOpening, Connecting)
      ensures told == old(told) + Notices(transport, {handlers}, whileOpening)
    {
      status := Connecting;
      for i := 0 to |whileOpening|
        invariant status == LastOr(whileOpening[..i], Connecting)
        invariant told == old(told) + Notices(transport, {handlers}, whileOpening[..i])
      {
        status := whileOpening[i];
        told := told + [Notice(transport, {handlers}, status)];
        assert whileOpening[..i + 1] == whileOpening[..i] + [status];
      }
      assert whileOpening[..|whileOpening|] == whileOpening;
    }

    /** The transport is torn down, and the entry removed, when the count reaches zero. */
    method ReleaseSubscription(fn: nat, handlers: nat) returns (torn: bool)
      requires Coherent(View())
      modifies this
      ensures Coherent(View()) && View() == Step(old(View()), Release(fn, handlers))
      ensures torn <==> fn in old(registry) && fn !in registry
    {
      ghost var before := View();
      ReleaseKeepsCoherent(before, fn, handlers);
      torn := false;
      if fn !in registry || handlers !in transports[registry[fn].transport].consumers {
        return;
      }
      var current := registry[fn];
      var t := transports[current.transport];
      t := t.(consumers := t.consumers - {handlers});
      current := current.(refCount := current.refCount - 1);
      if current.refCount <= 0 {
        t := t.(teardowns := t.teardowns + 1);
        registry := registry - {fn};
        torn := true;
      } else {
        registry := registry[fn := current];
      }
      transports := transports[current.transport := t];
      assert View() == DoRelease(before, fn, handlers);
    }

    /** The fan-out of one event: every consumer attached to the transport's function hears it once. */
    method FanOut(transport: nat) returns (heard: multiset<nat>)
      requires transport < |transports|
      ensures heard == multiset(transports[transport].consumers)
    {
      heard := multiset{};
      var todo := transports[transport].consumers;
      while todo != {}
        invariant heard + multiset(todo) == multiset(transports[transport].consumers)
      {
        var consumer :| consumer in todo;
        todo := todo - {consumer};
        heard := heard + multiset{consumer};
      }
    }
  }
}
