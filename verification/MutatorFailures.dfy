/**
 * Failed mutators leave no trace in the fields: a run and the same run without its failed mutator calls end with
 * the same authoritative and visible fields.
 */
module MutatorFailures {
  import opened Options
  import opened Values
  import opened Patch
  import opened Schemas
  import opened SchemaGraph
  import opened Ownership
  import opened Stores
  import opened Capabilities

  /* ---- authoritative fields are the successes, folded ---- */

  /** What the offer comes to: the contents of its accepted part. */
  function Accepted(cfg: Config, offer: Offer): Value
    requires cfg.schema.Node?
  {
    Strip(AcceptedPatch(cfg.schema, offer.own, offer.output, NoRef))
  }

  /** The accepted parts of a run's offers, in the order they were made. */
  ghost function Successes(cfg: Config, events: seq<Event>): seq<Value>
    requires WellDeclared(cfg)
  {
    if events == [] then []
    else
      var c, e := Run(cfg, Start(cfg), events[..|events| - 1]), events[|events| - 1];
      Successes(cfg, events[..|events| - 1])
      + if Enabled(cfg, c, e) && OfferOf(cfg, c, e).Some? then [Accepted(cfg, OfferOf(cfg, c, e).value)] else []
  }

  function MergeAll(base: Value, patches: seq<Value>): Value {
    if patches == [] then base else Merge(MergeAll(base, patches[..|patches| - 1]), patches[|patches| - 1])
  }

  /** How an event changes the authoritative fields' contents. */
  lemma ContentsAfterStep(cfg: Config, c: Capability, e: Event)
    requires Declared(cfg, c) && Enabled(cfg, c, e)
    ensures var was, offer := Strip(c.store.authoritative.fields), OfferOf(cfg, c, e);
            Strip(Step(cfg, c, e).store.authoritative.fields)
            == if offer.None? then was else Merge(was, Accepted(cfg, offer.value))
  {
    FieldsAfterStep(cfg, c, e);
    if OfferOf(cfg, c, e).Some? {
      var Offer(own, output) := OfferOf(cfg, c, e).value;
      var patch, at := AcceptedPatch(cfg.schema, own, output, PatchRef(c.store.next)), Ref(c.store.next, ["fields"]);
      AcceptedContents(cfg.schema, own, output, PatchRef(c.store.next), NoRef);
      PatchIntoRefinesMerge(c.store.authoritative.fields, patch, at);
    }
  }

  /**
   * After any run the authoritative fields are the defaults with the accepted parts of the successes merged in, in
   * settle order: each commit lands on what is then current, and a failure contributes nothing.
   */
  lemma {:induction false} FieldsAreTheSuccesses(cfg: Config, events: seq<Event>)
    requires WellDeclared(cfg)
    ensures Strip(Run(cfg, Start(cfg), events).store.authoritative.fields)
         == MergeAll(Strip(Default(cfg.schema, Ref(0, []))), Successes(cfg, events))
  {
    if events != [] {
      var n := |events| - 1;
      var c, e, before := Run(cfg, Start(cfg), events[..n]), events[n], Successes(cfg, events[..n]);
      FieldsAreTheSuccesses(cfg, events[..n]);
      assert before + [] == before;
      if Enabled(cfg, c, e) {
        ContentsAfterStep(cfg, c, e);
        if OfferOf(cfg, c, e).Some? {
          var accepted := Accepted(cfg, OfferOf(cfg, c, e).value);
          assert (before + [accepted])[..|before|] == before;
        }
      }
    }
  }

  /* ---- pending updates without their metadata ---- */

  datatype Optimistic = Optimistic(id: nat, patch: Value)

  function Updates(pending: seq<Transition>): seq<Optimistic> {
    if pending == [] then []
    else Updates(pending[..|pending| - 1]) + [Optimistic(pending[|pending| - 1].id, pending[|pending| - 1].fieldsPatch)]
  }

  function Dropping(us: seq<Optimistic>, ids: set<nat>): seq<Optimistic> {
    if us == [] then []
    else
      var last, rest := us[|us| - 1], Dropping(us[..|us| - 1], ids);
      if last.id in ids then rest else rest + [last]
  }

  lemma DroppingSnoc(us: seq<Optimistic>, u: Optimistic, ids: set<nat>)
    ensures Dropping(us + [u], ids) == if u.id in ids then Dropping(us, ids) else Dropping(us, ids) + [u]
  {
    assert (us + [u])[..|us|] == us;
  }

  lemma {:induction false} DroppingTwice(us: seq<Optimistic>, a: set<nat>, b: set<nat>)
    ensures Dropping(Dropping(us, a), b) == Dropping(us, a + b)
  {
    if us != [] {
      var last, rest := us[|us| - 1], Dropping(us[..|us| - 1], a);
      DroppingTwice(us[..|us| - 1], a, b);
      if last.id !in a { DroppingSnoc(rest, last, b); }
    }
  }

  lemma {:induction false} DroppingNothing(us: seq<Optimistic>, ids: set<nat>, extra: nat)
    requires forall u | u in us :: u.id != extra
    ensures Dropping(us, ids + {extra}) == Dropping(us, ids)
  {
    if us != [] {
      assert us[|us| - 1] in us;
      DroppingNothing(us[..|us| - 1], ids, extra);
    }
  }

  lemma {:induction false} DroppingNone(us: seq<Optimistic>)
    ensures Dropping(us, {}) == us
  {
    if us != [] { DroppingNone(us[..|us| - 1]); }
  }

  lemma UpdatesSnoc(pending: seq<Transition>, t: Transition)
    ensures Updates(pending + [t]) == Updates(pending) + [Optimistic(t.id, t.fieldsPatch)]
  {
    assert (pending + [t])[..|pending|] == pending;
  }

  lemma {:induction false} UpdatesWithout(pending: seq<Transition>, id: nat)
    ensures Updates(Without(pending, id)) == Dropping(Updates(pending), {id})
  {
    if pending != [] {
      var n := |pending| - 1;
      var t, rest := pending[n], Without(pending[..n], id);
      assert pending == pending[..n] + [t];
      UpdatesWithout(pending[..n], id);
      WithoutSnoc(pending[..n], t, id);
      DroppingSnoc(Updates(pending[..n]), Optimistic(t.id, t.fieldsPatch), {id});
      if t.id == id {
        assert rest + [] == rest;
      } else {
        UpdatesSnoc(rest, t);
      }
    }
  }

  lemma {:induction false} UpdatesIds(pending: seq<Transition>, id: nat)
    requires forall t | t in pending :: t.id != id
    ensures forall u | u in Updates(pending) :: u.id != id
  {
    if pending != [] {
      var n := |pending| - 1;
      assert pending[n] in pending;
      UpdatesIds(pending[..n], id);
    }
  }

  function Overlay(fields: Value, us: seq<Optimistic>): Value {
    if us == [] then fields else Merge(Overlay(fields, us[..|us| - 1]), Strip(us[|us| - 1].patch))
  }

  lemma {:induction false} FoldIsOverlay(c: Contents, pending: seq<Transition>)
    ensures Fold(c, pending).0 == Overlay(c.0, Updates(pending))
  {
    if pending != [] {
      var n := |pending| - 1;
      FoldIsOverlay(c, pending[..n]);
      var us := Updates(pending[..n]);
      assert (us + [Optimistic(pending[n].id, pending[n].fieldsPatch)])[..|us|] == us;
    }
  }

  lemma VisibleFields(st: Store)
    requires Projected(st)
    ensures Strip(st.visible.fields) == Overlay(Strip(st.authoritative.fields), Updates(st.pending))
  {
    ProjectContents(st.authoritative, st.pending, st.projectedAt);
    FoldIsOverlay(StripState(st.authoritative), st.pending);
  }

  /* ---- removing failed calls ---- */

  predicate Dropped(e: Event, bad: set<nat>) {
    (e.MutatorStart? || e.MutatorSettle?) && e.id in bad
  }

  /** The run without the mutator calls in `bad`. */
  function WithoutCalls(events: seq<Event>, bad: set<nat>): seq<Event> {
    if events == [] then []
    else
      var rest, e := WithoutCalls(events[..|events| - 1], bad), events[|events| - 1];
      if Dropped(e, bad) then rest else rest + [e]
  }

  /** Every call in `bad` is a mutator's, and it fails if it settles. */
  predicate AllFail(events: seq<Event>, bad: set<nat>) {
    forall i | 0 <= i < |events| ::
      && (events[i].MutatorSettle? && events[i].id in bad ==> events[i].outcome.Failed?)
      && (events[i].GetterStart? || events[i].GetterSettle? ==> events[i].id !in bad)
  }

  ghost function BadSymbols(calls: map<nat, Call>, bad: set<nat>): set<nat> {
    set id | id in calls && id in bad && calls[id].MutatorCall? && calls[id].transition.Some?
      :: calls[id].transition.value
  }

  /** `d` is `c` without the calls in `bad`. */
  ghost predicate Related(c: Capability, d: Capability, bad: set<nat>) {
    && d.latest == c.latest
    && d.calls == c.calls - bad
    && d.nextCall <= c.nextCall
    && Strip(d.store.authoritative.fields) == Strip(c.store.authoritative.fields)
    && Updates(d.store.pending) == Dropping(Updates(c.store.pending), BadSymbols(c.calls, bad))
  }

  lemma {:induction false} UpdatesOf(pending: seq<Transition>)
    ensures forall u :: u in Updates(pending) <==> exists t | t in pending :: u == Optimistic(t.id, t.fieldsPatch)
  {
    if pending != [] {
      var n := |pending| - 1;
      assert pending == pending[..n] + [pending[n]];
      UpdatesOf(pending[..n]);
    }
  }

  lemma {:induction false} DroppingKeeps(us: seq<Optimistic>, ids: set<nat>)
    ensures forall u | u in Dropping(us, ids) :: u in us
  {
    if us != [] { DroppingKeeps(us[..|us| - 1], ids); }
  }

  /** A symbol that is not pending in `c` is not pending in `d`. */
  lemma FreshSymbolStaysFresh(c: Capability, d: Capability, bad: set<nat>, symbol: nat)
    requires Related(c, d, bad) && forall t | t in c.store.pending :: t.id != symbol
    ensures forall t | t in d.store.pending :: t.id != symbol
  {
    UpdatesIds(c.store.pending, symbol);
    DroppingKeeps(Updates(c.store.pending), BadSymbols(c.calls, bad));
    UpdatesOf(d.store.pending);
    forall t | t in d.store.pending ensures t.id != symbol {
      assert Optimistic(t.id, t.fieldsPatch) in Updates(d.store.pending);
    }
  }

  lemma KeptEventEnabled(cfg: Config, c: Capability, d: Capability, e: Event, bad: set<nat>)
    requires Related(c, d, bad) && Enabled(cfg, c, e) && !Dropped(e, bad) && AllFail([e], bad)
    ensures Enabled(cfg, d, e)
  {
    assert [e][0] == e;
    if e.MutatorStart? && e.optimism.Update? { FreshSymbolStaysFresh(c, d, bad, e.optimism.symbol); }
  }

  /** How an event changes the pending updates. */
  ghost function UpdatesAfter(c: Capability, e: Event): seq<Optimistic> {
    var us := Updates(c.store.pending);
    if e.MutatorStart? && e.optimism.Update? then us + [Optimistic(e.optimism.symbol, e.optimism.patch)]
    else if e.MutatorSettle? && e.id in c.calls && c.calls[e.id].MutatorCall? && c.calls[e.id].transition.Some? then
      Dropping(us, {c.calls[e.id].transition.value})
    else us
  }

  lemma UpdatesAfterStep(cfg: Config, c: Capability, e: Event)
    requires Declared(cfg, c) && Enabled(cfg, c, e)
    ensures Updates(Step(cfg, c, e).store.pending) == UpdatesAfter(c, e)
  {
    PendingAfterStep(cfg, c, e);
    var next := Step(cfg, c, e).store.pending;
    if e.MutatorStart? && e.optimism.Update? {
      UpdatesSnoc(c.store.pending, next[|c.store.pending|]);
    } else if e.MutatorSettle? && c.calls[e.id].transition.Some? {
      UpdatesWithout(c.store.pending, c.calls[e.id].transition.value);
    }
  }

  lemma SymbolsOfAdded(calls: map<nat, Call>, bad: set<nat>, id: nat, call: Call)
    requires id !in calls
    ensures if id in bad && call.MutatorCall? && call.transition.Some?
            then BadSymbols(calls[id := call], bad) == BadSymbols(calls, bad) + {call.transition.value}
            else BadSymbols(calls[id := call], bad) == BadSymbols(calls, bad)
  {
    var now := calls[id := call];
    forall a | a in calls ensures a in now && now[a] == calls[a] {}
    if id in bad && call.MutatorCall? && call.transition.Some? {
      assert id in now && now[id] == call;
      assert call.transition.value in BadSymbols(now, bad);
    }
  }

  lemma SymbolsOfRemoved(calls: map<nat, Call>, bad: set<nat>, id: nat)
    requires id in calls
    requires forall a | a in calls && a != id && a in bad && id in bad
                        && calls[a].MutatorCall? && calls[id].MutatorCall? && calls[id].transition.Some? ::
               calls[a].transition != calls[id].transition
    ensures if id in bad && calls[id].MutatorCall? && calls[id].transition.Some?
            then BadSymbols(calls - {id}, bad) == BadSymbols(calls, bad) - {calls[id].transition.value}
            else BadSymbols(calls - {id}, bad) == BadSymbols(calls, bad)
  {
    var now := calls - {id};
    forall a | a in now ensures a in calls && now[a] == calls[a] && a != id {}
    forall symbol | symbol in BadSymbols(calls, bad)
                    && !(id in bad && calls[id].MutatorCall? && calls[id].transition == Some(symbol))
      ensures symbol in BadSymbols(now, bad)
    {
      var a :| a in calls && a in bad && calls[a].MutatorCall?
               && calls[a].transition.Some? && calls[a].transition.value == symbol;
      assert a in now && now[a] == calls[a];
    }
  }

  /** The state after a dropped event is related to the very same `d`. */
  lemma DroppedKeepsRelated(c: Capability, next: Capability, d: Capability, e: Event, bad: set<nat>)
    requires Related(c, d, bad) && Paired(c) && Dropped(e, bad)
    requires forall id | id in c.calls :: id < c.nextCall
    requires e.MutatorStart? ==> e.id >= c.nextCall && next.nextCall >= c.nextCall
    requires e.MutatorStart? && e.optimism.Update? ==> forall t | t in c.store.pending :: t.id != e.optimism.symbol
    requires e.MutatorSettle? ==> e.id in c.calls && c.calls[e.id].MutatorCall? && next.nextCall == c.nextCall
    requires next.calls == CallsAfter(c, e) && next.latest == c.latest
    requires Strip(next.store.authoritative.fields) == Strip(c.store.authoritative.fields)
    requires Updates(next.store.pending) == UpdatesAfter(c, e)
    ensures Related(next, d, bad)
  {
    var us, symbols := Updates(c.store.pending), BadSymbols(c.calls, bad);
    assert next.calls - bad == c.calls - bad;
    if e.MutatorStart? {
      if !e.optimism.Throws? {
        SymbolsOfAdded(c.calls, bad, e.id, next.calls[e.id]);
        if e.optimism.Update? {
          UpdatesIds(c.store.pending, e.optimism.symbol);
          DroppingNothing(us, symbols, e.optimism.symbol);
          DroppingSnoc(us, Optimistic(e.optimism.symbol, e.optimism.patch), symbols + {e.optimism.symbol});
        }
      }
    } else {
      if c.calls[e.id].transition.Some? { DistinctSymbols(c, e.id); }
      SymbolsOfRemoved(c.calls, bad, e.id);
      if c.calls[e.id].transition.Some? {
        var own := c.calls[e.id].transition.value;
        assert own in symbols;
        DroppingTwice(us, {own}, symbols - {own});
        assert {own} + (symbols - {own}) == symbols;
      }
    }
  }

  lemma DistinctSymbols(c: Capability, id: nat)
    requires Paired(c) && id in c.calls && c.calls[id].MutatorCall? && c.calls[id].transition.Some?
    ensures forall a | a in c.calls && a != id && c.calls[a].MutatorCall? ::
              c.calls[a].transition != c.calls[id].transition
  {
    forall a | a in c.calls && a != id && c.calls[a].MutatorCall?
      ensures c.calls[a].transition != c.calls[id].transition
    {
      var symbol := c.calls[id].transition.value;
      assert HasTransition(c, id, symbol);
      assert c.calls[a].transition == Some(symbol) ==> HasTransition(c, a, symbol);
    }
  }

  /** A kept event takes related states to related states. */
  lemma KeptKeepsRelated(c: Capability, next: Capability, d: Capability, after: Capability, e: Event, bad: set<nat>)
    requires Related(c, d, bad) && Paired(c) && !Dropped(e, bad) && AllFail([e], bad)
    requires forall id | id in c.calls :: id < c.nextCall
    requires e.GetterStart? || e.MutatorStart? ==> e.id >= c.nextCall && next.nextCall == after.nextCall
    requires !(e.GetterStart? || e.MutatorStart?) ==> next.nextCall == c.nextCall && after.nextCall == d.nextCall
    requires e.MutatorStart? && e.optimism.Update? ==> forall t | t in c.store.pending :: t.id != e.optimism.symbol
    requires e.GetterSettle? || e.MutatorSettle? ==>
      e.id in c.calls && (c.calls[e.id].MutatorCall? <==> e.MutatorSettle?)
    requires next.calls == CallsAfter(c, e) && after.calls == CallsAfter(d, e) && next.latest == after.latest
    requires Strip(next.store.authoritative.fields) == Strip(after.store.authoritative.fields)
    requires Updates(next.store.pending) == UpdatesAfter(c, e) && Updates(after.store.pending) == UpdatesAfter(d, e)
    ensures Related(next, after, bad)
  {
    assert [e][0] == e;
    var us, symbols := Updates(c.store.pending), BadSymbols(c.calls, bad);
    assert after.calls == next.calls - bad;
    match e
    case GetterStart(id, _) => SymbolsOfAdded(c.calls, bad, id, next.calls[id]);
    case GetterSettle(id, _) => SymbolsOfRemoved(c.calls, bad, id);
    case MutatorStart(id, _, optimism) =>
      if !optimism.Throws? { SymbolsOfAdded(c.calls, bad, id, next.calls[id]); }
      if optimism.Update? {
        SymbolsArePending(c, bad);
        DroppingSnoc(us, Optimistic(optimism.symbol, optimism.patch), symbols);
      }
    case MutatorSettle(id, _) =>
      SymbolsOfRemoved(c.calls, bad, id);
      if c.calls[id].transition.Some? {
        var own := c.calls[id].transition.value;
        DroppingTwice(us, {own}, symbols);
        DroppingTwice(us, symbols, {own});
        assert {own} + symbols == symbols + {own};
      }
    case _ =>
  }

  lemma SymbolsArePending(c: Capability, bad: set<nat>)
    requires Paired(c)
    ensures forall symbol | symbol in BadSymbols(c.calls, bad) :: exists t | t in c.store.pending :: t.id == symbol
  {
    forall symbol | symbol in BadSymbols(c.calls, bad) ensures exists t | t in c.store.pending :: t.id == symbol {
      var id :| id in c.calls && id in bad && c.calls[id].MutatorCall? && c.calls[id].transition == Some(symbol);
      assert HasTransition(c, id, symbol);
    }
  }

  /** The shortened run is feasible, and ends in a related state. */
  ghost predicate Shortens(cfg: Config, events: seq<Event>, bad: set<nat>)
    requires WellDeclared(cfg)
  {
    && Feasible(cfg, Start(cfg), WithoutCalls(events, bad))
    && Related(Run(cfg, Start(cfg), events), Run(cfg, Start(cfg), WithoutCalls(events, bad)), bad)
  }

  lemma {:induction false} RunsStayRelated(cfg: Config, events: seq<Event>, bad: set<nat>)
    requires WellDeclared(cfg) && Feasible(cfg, Start(cfg), events) && AllFail(events, bad)
    ensures Shortens(cfg, events, bad)
  {
    if events == [] {
      assert Start(cfg).calls - bad == Start(cfg).calls;
    } else {
      var n := |events| - 1;
      RunsStayRelated(cfg, events[..n], bad);
      AlwaysPaired(cfg, events[..n]);
      assert AllFail([events[n]], bad) by { assert [events[n]][0] == events[n]; }
      if Dropped(events[n], bad) {
        DroppedEvent(cfg, events, bad);
      } else {
        KeptEvent(cfg, events, bad);
      }
    }
  }

  lemma DroppedEvent(cfg: Config, events: seq<Event>, bad: set<nat>)
    requires WellDeclared(cfg) && events != [] && Feasible(cfg, Start(cfg), events)
    requires Shortens(cfg, events[..|events| - 1], bad) && Paired(Run(cfg, Start(cfg), events[..|events| - 1]))
    requires Dropped(events[|events| - 1], bad) && AllFail([events[|events| - 1]], bad)
    ensures Shortens(cfg, events, bad)
  {
    var n := |events| - 1;
    var c, d := Run(cfg, Start(cfg), events[..n]), Run(cfg, Start(cfg), WithoutCalls(events[..n], bad));
    DroppedStep(cfg, c, d, events[n], bad);
  }

  lemma KeptEvent(cfg: Config, events: seq<Event>, bad: set<nat>)
    requires WellDeclared(cfg) && events != [] && Feasible(cfg, Start(cfg), events)
    requires Shortens(cfg, events[..|events| - 1], bad) && Paired(Run(cfg, Start(cfg), events[..|events| - 1]))
    requires !Dropped(events[|events| - 1], bad) && AllFail([events[|events| - 1]], bad)
    ensures Shortens(cfg, events, bad)
  {
    var n := |events| - 1;
    var e, rest := events[n], WithoutCalls(events[..n], bad);
    var c, d := Run(cfg, Start(cfg), events[..n]), Run(cfg, Start(cfg), rest);
    KeptEventEnabled(cfg, c, d, e, bad);
    KeptStep(cfg, c, d, e, bad);
    assert (rest + [e])[..|rest|] == rest;
  }

  lemma DroppedStep(cfg: Config, c: Capability, d: Capability, e: Event, bad: set<nat>)
    requires Declared(cfg, c) && Enabled(cfg, c, e) && Paired(c)
    requires Related(c, d, bad) && Dropped(e, bad) && AllFail([e], bad)
    ensures Related(Step(cfg, c, e), d, bad)
  {
    CallsAfterStep(cfg, c, e);
    UpdatesAfterStep(cfg, c, e);
    ContentsAfterStep(cfg, c, e);
    assert [e][0] == e;
    DroppedKeepsRelated(c, Step(cfg, c, e), d, e, bad);
  }

  lemma KeptStep(cfg: Config, c: Capability, d: Capability, e: Event, bad: set<nat>)
    requires Declared(cfg, c) && Declared(cfg, d) && Enabled(cfg, c, e) && Enabled(cfg, d, e) && Paired(c)
    requires Related(c, d, bad) && !Dropped(e, bad) && AllFail([e], bad)
    ensures Related(Step(cfg, c, e), Step(cfg, d, e), bad)
  {
    CallsAfterStep(cfg, c, e);
    CallsAfterStep(cfg, d, e);
    UpdatesAfterStep(cfg, c, e);
    UpdatesAfterStep(cfg, d, e);
    ContentsAfterStep(cfg, c, e);
    ContentsAfterStep(cfg, d, e);
    assert OfferOf(cfg, c, e) == OfferOf(cfg, d, e) by { assert [e][0] == e; }
    KeptKeepsRelated(c, Step(cfg, c, e), d, Step(cfg, d, e), e, bad);
  }

  /** With none of the deleted calls in flight, related states show the same fields. */
  lemma RelatedAtRest(c: Capability, d: Capability, bad: set<nat>)
    requires Related(c, d, bad) && Projected(c.store) && Projected(d.store)
    requires forall id | id in bad :: id !in c.calls
    ensures Strip(d.store.visible.fields) == Strip(c.store.visible.fields)
    ensures d.calls == c.calls
  {
    assert BadSymbols(c.calls, bad) == {};
    DroppingNone(Updates(c.store.pending));
    assert c.calls - bad == c.calls;
    VisibleFields(c.store);
    VisibleFields(d.store);
  }

  /**
   * Failed mutators are invisible. Take any run, and any set of mutator calls that have all failed or never got
   * past their optimistic callback by its end. Deleting those calls gives a run that could have happened, and it
   * ends with the same authoritative fields, the same visible fields and the same calls in flight -- although
   * their optimistic updates were visible, and other calls started and settled, in between.
   */
  lemma FailedMutatorsAreInvisible(cfg: Config, events: seq<Event>, bad: set<nat>)
    requires WellDeclared(cfg) && Feasible(cfg, Start(cfg), events) && AllFail(events, bad)
    requires forall id | id in bad :: id !in Run(cfg, Start(cfg), events).calls
    ensures Feasible(cfg, Start(cfg), WithoutCalls(events, bad))
    ensures var c, d := Run(cfg, Start(cfg), events), Run(cfg, Start(cfg), WithoutCalls(events, bad));
            && Strip(d.store.authoritative.fields) == Strip(c.store.authoritative.fields)
            && Strip(d.store.visible.fields) == Strip(c.store.visible.fields)
            && d.calls == c.calls
  {
    var shorter := WithoutCalls(events, bad);
    RunsStayRelated(cfg, events, bad);
    FieldsAlwaysConform(cfg, events);
    FieldsAlwaysConform(cfg, shorter);
    RelatedAtRest(Run(cfg, Start(cfg), events), Run(cfg, Start(cfg), shorter), bad);
  }
}
