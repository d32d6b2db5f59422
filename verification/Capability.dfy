/**
 * The life of a capability's calls. A call is two atomic steps: its start, up to the point where it awaits its
 * execution, and its settlement. `Capability` is the state of one capability, `Step` what each event does to it;
 * the environment chooses which call settles when, and how.
 */
module Capabilities {
  import opened Options
  import opened Values
  import opened Patch
  import opened Schemas
  import opened SchemaGraph
  import opened Ownership
  import opened Info
  import opened Stores

  /** The declared schema, and what each operation writes (a mutator that declares nothing writes `Whole`). */
  datatype Config = Config(
    schema: Schema, getters: map<string, Own>, mutators: map<string, Own>, subscriptions: map<string, Own>)

  ghost predicate WellDeclared(cfg: Config) {
    && cfg.schema.Node?
    && (forall n | n in cfg.getters :: NoMeta(cfg.getters[n]))
    && (forall n | n in cfg.mutators :: NoMeta(cfg.mutators[n]))
    && (forall n | n in cfg.subscriptions :: NoMeta(cfg.subscriptions[n]))
  }

  /** A call in flight; a mutator's optimistic transition is known by its symbol. */
  datatype Call = GetterCall(name: string) | MutatorCall(name: string, transition: Option<nat>)

  /** `latest` is the start token of each getter's last call; tokens increase, as calls start. */
  datatype Capability = Capability(store: Store, latest: map<string, nat>, calls: map<nat, Call>, nextCall: nat)

  /** What a call's execution and processor came to: an output, or an error (a rejection, an abort, a throw). */
  datatype Outcome = Produced(output: Value) | Failed(error: Value)

  /** What a mutator's optimistic callback does, if there is one. */
  datatype Optimism = NoUpdate | Update(symbol: nat, patch: Value) | Throws

  datatype Event =
    | GetterStart(id: nat, name: string)
    | GetterSettle(id: nat, outcome: Outcome)
    | MutatorStart(id: nat, name: string, optimism: Optimism)
    | MutatorSettle(id: nat, outcome: Outcome)
    | SubscriptionEvent(name: string, output: Value)
    | SubscriptionStatus(name: string, status: string, error: Value)

  /* ---- metadata; `n` is the allocation stamp it is made under ---- */

  function Meta(n: nat, props: map<string, Value>): Value {
    Obj(Ref(n, ["meta"]), props)
  }

  function ErrorOf(n: nat, name: string, error: Value): Value {
    Obj(Ref(n, ["error"]), map["operator" := Str(name), "error" := error])
  }

  function LoadingMeta(n: nat): Value {
    Meta(n, map["status" := LOADING])
  }

  function OptimisticMeta(n: nat): Value {
    Meta(n, map["status" := LOADING, "optimistic" := Boolean(true)])
  }

  function GetterMeta(n: nat, name: string, outcome: Outcome): Value {
    match outcome
    case Produced(_) => Meta(n, map["status" := SUCCESS, "source" := Str(name)])
    case Failed(e) => Meta(n, map["status" := FAILURE, "error" := ErrorOf(n, name, e)])
  }

  function MutatorMeta(n: nat, name: string, outcome: Outcome): Value {
    match outcome
    case Produced(_) =>
      Meta(n, map["status" := SUCCESS, "optimistic" := Boolean(false), "source" := Str(name)])
    case Failed(e) =>
      Meta(n, map["status" := FAILURE, "optimistic" := Boolean(false), "error" := ErrorOf(n, name, e)])
  }

  /** What a connection reports: its status, and the error if there is one. */
  function ConnectionInfo(n: nat, name: string, status: string, error: Value): Value {
    Obj(Ref(n, ["subscription"]),
        if error.Undef? then map["status" := Str(status)]
        else map["status" := Str(status), "error" := ErrorOf(n, name, error)])
  }

  function ConnectionMeta(n: nat, name: string, status: string, error: Value): Value {
    Meta(n, map["subscription" := ConnectionInfo(n, name, status, error)])
  }

  function PatchRef(n: nat): Ref {
    Ref(n, ["patch"])
  }

  function InfoOf(n: nat, own: Own, meta: Value): Value {
    InfoPatch(own, meta, Ref(n, ["owned"]))
  }

  /** The accepted part of what a call produced; a failed call offers nothing. */
  function FieldsOf(cfg: Config, n: nat, own: Own, outcome: Outcome): Value
    requires cfg.schema.Node?
  {
    if outcome.Produced? then AcceptedPatch(cfg.schema, own, outcome.output, PatchRef(n)) else Undef
  }

  /* ---- steps ---- */

  function Begin(st: Store, own: Own): Store {
    Commit(st, Undef, InfoOf(st.next, own, LoadingMeta(st.next)))
  }

  ghost predicate Enabled(cfg: Config, c: Capability, e: Event) {
    match e
    case GetterStart(id, name) => id >= c.nextCall && name in cfg.getters
    case GetterSettle(id, _) => id in c.calls && c.calls[id].GetterCall?
    case MutatorStart(id, name, optimism) =>
      && id >= c.nextCall && name in cfg.mutators
      && (optimism.Update? ==> !optimism.patch.Undef? && forall t | t in c.store.pending :: t.id != optimism.symbol)
    case MutatorSettle(id, _) => id in c.calls && c.calls[id].MutatorCall?
    case SubscriptionEvent(name, _) => name in cfg.subscriptions
    case SubscriptionStatus(name, _, _) => name in cfg.subscriptions
  }

  /** The names in the state are declared, so every step below is defined. */
  ghost predicate Declared(cfg: Config, c: Capability) {
    && WellDeclared(cfg)
    && (forall id | id in c.calls ::
      && id < c.nextCall
      && if c.calls[id].GetterCall?
         then c.calls[id].name in cfg.getters && c.calls[id].name in c.latest && id <= c.latest[c.calls[id].name]
         else c.calls[id].name in cfg.mutators)
    && (forall n | n in c.latest :: n in cfg.getters && c.latest[n] < c.nextCall)
  }

  function SettleGetter(cfg: Config, c: Capability, id: nat, outcome: Outcome): Store
    requires cfg.schema.Node? && id in c.calls && c.calls[id].name in cfg.getters && c.calls[id].name in c.latest
  {
    var name := c.calls[id].name;
    var own := cfg.getters[name];
    if c.latest[name] == id then
      Commit(c.store, FieldsOf(cfg, c.store.next, own, outcome),
             InfoOf(c.store.next, own, GetterMeta(c.store.next, name, outcome)))
    else c.store
  }

  function SettleMutator(cfg: Config, c: Capability, id: nat, outcome: Outcome): Store
    requires cfg.schema.Node? && id in c.calls && c.calls[id].MutatorCall? && c.calls[id].name in cfg.mutators
  {
    var MutatorCall(name, transition) := c.calls[id];
    var own := cfg.mutators[name];
    var committed :=
      Commit(c.store, FieldsOf(cfg, c.store.next, own, outcome),
             InfoOf(c.store.next, own, MutatorMeta(c.store.next, name, outcome)));
    if transition.Some? then Remove(committed, transition.value) else committed
  }

  function StartMutator(cfg: Config, c: Capability, id: nat, name: string, optimism: Optimism): Capability
    requires name in cfg.mutators
  {
    var own := cfg.mutators[name];
    var begun := Begin(c.store, own);
    match optimism
    case Throws => c.(store := begun, nextCall := id + 1)
    case NoUpdate => c.(store := begun, nextCall := id + 1, calls := c.calls[id := MutatorCall(name, None)])
    case Update(symbol, patch) =>
      c.(store := Add(begun, symbol, patch, InfoOf(begun.next, own, OptimisticMeta(begun.next))),
         nextCall := id + 1, calls := c.calls[id := MutatorCall(name, Some(symbol))])
  }

  ghost function Step(cfg: Config, c: Capability, e: Event): Capability
    requires Declared(cfg, c) && Enabled(cfg, c, e)
  {
    match e
    case GetterStart(id, name) =>
      Capability(Begin(c.store, cfg.getters[name]), c.latest[name := id], c.calls[id := GetterCall(name)], id + 1)
    case GetterSettle(id, outcome) => c.(store := SettleGetter(cfg, c, id, outcome), calls := c.calls - {id})
    case MutatorStart(id, name, optimism) => StartMutator(cfg, c, id, name, optimism)
    case MutatorSettle(id, outcome) => c.(store := SettleMutator(cfg, c, id, outcome), calls := c.calls - {id})
    case SubscriptionEvent(name, output) =>
      var own := cfg.subscriptions[name];
      c.(store := Commit(c.store, FieldsOf(cfg, c.store.next, own, Produced(output)),
                         InfoOf(c.store.next, own, GetterMeta(c.store.next, name, Produced(output)))))
    case SubscriptionStatus(name, status, error) =>
      var meta := ConnectionMeta(c.store.next, name, status, error);
      c.(store := Commit(c.store, Undef, InfoOf(c.store.next, cfg.subscriptions[name], meta)))
  }

  lemma StepKeepsDeclared(cfg: Config, c: Capability, e: Event)
    requires Declared(cfg, c) && Enabled(cfg, c, e)
    ensures Declared(cfg, Step(cfg, c, e))
  {
  }

  /* ---- runs ---- */

  /** The state after the events; one that is not enabled changes nothing. */
  ghost function Run(cfg: Config, c: Capability, events: seq<Event>): (r: Capability)
    requires Declared(cfg, c)
    ensures Declared(cfg, r)
  {
    if events == [] then c
    else
      var n := |events| - 1;
      var before := Run(cfg, c, events[..n]);
      if Enabled(cfg, before, events[n]) then
        StepKeepsDeclared(cfg, before, events[n]);
        Step(cfg, before, events[n])
      else before
  }

  /** Every event is enabled when it happens. */
  ghost predicate Feasible(cfg: Config, c: Capability, events: seq<Event>)
    requires Declared(cfg, c)
  {
    events == [] ||
    (&& Feasible(cfg, c, events[..|events| - 1])
     && Enabled(cfg, Run(cfg, c, events[..|events| - 1]), events[|events| - 1]))
  }

  function Start(cfg: Config): Capability {
    Capability(Init(Initial(cfg.schema), FIRST_STAMP), map[], map[], 0)
  }

  /* ---- what a step writes ---- */

  /** The one commit onto authoritative state an event makes, if any. */
  datatype Write = Write(fields: Value, own: Own, meta: Value)

  ghost function WriteOf(cfg: Config, c: Capability, e: Event): Option<Write>
    requires Declared(cfg, c) && Enabled(cfg, c, e)
  {
    match e
    case GetterStart(_, name) => Some(Write(Undef, cfg.getters[name], LoadingMeta(c.store.next)))
    case MutatorStart(_, name, _) => Some(Write(Undef, cfg.mutators[name], LoadingMeta(c.store.next)))
    case GetterSettle(id, outcome) =>
      var name := c.calls[id].name;
      if c.latest[name] != id then None
      else
        Some(Write(FieldsOf(cfg, c.store.next, cfg.getters[name], outcome), cfg.getters[name],
                   GetterMeta(c.store.next, name, outcome)))
    case MutatorSettle(id, outcome) =>
      var name := c.calls[id].name;
      Some(Write(FieldsOf(cfg, c.store.next, cfg.mutators[name], outcome), cfg.mutators[name],
                 MutatorMeta(c.store.next, name, outcome)))
    case SubscriptionEvent(name, output) =>
      Some(Write(FieldsOf(cfg, c.store.next, cfg.subscriptions[name], Produced(output)), cfg.subscriptions[name],
                 GetterMeta(c.store.next, name, Produced(output))))
    case SubscriptionStatus(name, status, error) =>
      Some(Write(Undef, cfg.subscriptions[name], ConnectionMeta(c.store.next, name, status, error)))
  }

  function Written(st: Store, w: Write): Store {
    Commit(st, w.fields, InfoOf(st.next, w.own, w.meta))
  }

  /** After its one commit an event changes nothing authoritative. */
  lemma StepCommits(cfg: Config, c: Capability, e: Event)
    requires Declared(cfg, c) && Enabled(cfg, c, e)
    ensures var st, next, w := c.store, Step(cfg, c, e).store, WriteOf(cfg, c, e);
            && (w.None? ==> next == st)
            && (w.Some? ==>
                && next.authoritative == Written(st, w.value).authoritative
                && (Projected(Written(st, w.value)) ==> Projected(next)))
  {
    if e.MutatorSettle? && c.calls[e.id].transition.Some? {
      WithoutLaws(Written(c.store, WriteOf(cfg, c, e).value).pending, c.calls[e.id].transition.value);
    }
  }

  lemma StepWrites(cfg: Config, c: Capability, e: Event)
    requires Declared(cfg, c) && Enabled(cfg, c, e)
    ensures var st, next, w := c.store, Step(cfg, c, e).store, WriteOf(cfg, c, e);
            && (w.None? ==> next == st)
            && (w.Some? ==>
                && IsMeta(w.value.meta) && NoMeta(w.value.own)
                && next.authoritative.fields
                   == PatchInto(st.authoritative.fields, w.value.fields, Ref(st.next, ["fields"]))
                && next.authoritative.info
                   == PatchInto(st.authoritative.info, InfoOf(st.next, w.value.own, w.value.meta),
                                Ref(st.next, ["info"])))
            && (Projected(st) ==> Projected(next))
  {
    StepCommits(cfg, c, e);
    var w := WriteOf(cfg, c, e);
    if w.Some? {
      AuthoritativeAfterCommit(c.store, w.value.fields, InfoOf(c.store.next, w.value.own, w.value.meta));
    }
  }

  /** What an event brings in for the fields: an output, under the ownership of the operation it is of. */
  datatype Offer = Offer(own: Own, output: Value)

  /** A call that succeeded makes an offer, a getter's only if it was started last; so does a subscription event. */
  ghost function OfferOf(cfg: Config, c: Capability, e: Event): Option<Offer>
    requires Declared(cfg, c) && Enabled(cfg, c, e)
  {
    match e
    case GetterSettle(id, Produced(output)) =>
      var name := c.calls[id].name;
      if c.latest[name] == id then Some(Offer(cfg.getters[name], output)) else None
    case MutatorSettle(id, Produced(output)) => Some(Offer(cfg.mutators[c.calls[id].name], output))
    case SubscriptionEvent(name, output) => Some(Offer(cfg.subscriptions[name], output))
    case _ => None
  }

  /** An offer lands with its accepted part; no other event -- a start, a failure, a report -- touches the fields. */
  lemma FieldsAfterStep(cfg: Config, c: Capability, e: Event)
    requires Declared(cfg, c) && Enabled(cfg, c, e)
    ensures var was, n := c.store.authoritative.fields, c.store.next;
            Step(cfg, c, e).store.authoritative.fields
            == match OfferOf(cfg, c, e)
               case None => was
               case Some(Offer(own, output)) =>
                 PatchInto(was, AcceptedPatch(cfg.schema, own, output, PatchRef(n)), Ref(n, ["fields"]))
  {
    StepWrites(cfg, c, e);
  }

  /* ---- type soundness ---- */

  /** Fields have the declared shape with every declared key present; info is an info tree. */
  ghost predicate Sound(cfg: Config, c: Capability) {
    && Projected(c.store)
    && Conforms(cfg.schema, c.store.authoritative.fields, true)
    && InfoTree(c.store.authoritative.info)
  }

  lemma StepKeepsSound(cfg: Config, c: Capability, e: Event)
    requires Declared(cfg, c) && Enabled(cfg, c, e) && Sound(cfg, c)
    ensures Sound(cfg, Step(cfg, c, e))
  {
    StepWrites(cfg, c, e);
    FieldsAfterStep(cfg, c, e);
    var w, offer, st := WriteOf(cfg, c, e), OfferOf(cfg, c, e), c.store;
    if offer.Some? {
      var Offer(own, output) := offer.value;
      OperationKeepsConforming(
        cfg.schema, own, output, PatchRef(st.next), st.authoritative.fields, Ref(st.next, ["fields"]));
    }
    if w.Some? {
      var Write(_, own, meta) := w.value;
      StatusAfterPatch(st.authoritative.info, own, meta, Ref(st.next, ["owned"]), Ref(st.next, ["info"]), []);
    }
  }

  /**
   * Type soundness over all runs: whatever the operations return and however their settlements interleave,
   * authoritative fields conform to the schema and keep every declared key.
   */
  lemma {:induction false} FieldsAlwaysConform(cfg: Config, events: seq<Event>)
    requires WellDeclared(cfg)
    ensures Sound(cfg, Run(cfg, Start(cfg), events))
  {
    if events == [] {
      DefaultConforms(cfg.schema, Ref(0, []));
    } else {
      var n := |events| - 1;
      FieldsAlwaysConform(cfg, events[..n]);
      var before := Run(cfg, Start(cfg), events[..n]);
      if Enabled(cfg, before, events[n]) { StepKeepsSound(cfg, before, events[n]); }
    }
  }

  /* ---- ownership over runs ---- */

  /** No operation of the capability owns the leaf. */
  ghost predicate Unowned(cfg: Config, path: seq<string>) {
    && (forall n | n in cfg.getters :: !Owns(cfg.getters[n], path))
    && (forall n | n in cfg.mutators :: !Owns(cfg.mutators[n], path))
    && (forall n | n in cfg.subscriptions :: !Owns(cfg.subscriptions[n], path))
  }

  /** The event makes an offer that resets an object above the path. */
  ghost predicate Resets(cfg: Config, c: Capability, e: Event, path: seq<string>)
    requires Declared(cfg, c) && Enabled(cfg, c, e)
  {
    var offer := OfferOf(cfg, c, e);
    offer.Some? && ResetAbove(cfg.schema, offer.value.own, offer.value.output, path)
  }

  ghost predicate NeverReset(cfg: Config, events: seq<Event>, path: seq<string>)
    requires WellDeclared(cfg)
  {
    events == [] ||
    (&& NeverReset(cfg, events[..|events| - 1], path)
     && var c := Run(cfg, Start(cfg), events[..|events| - 1]);
        Enabled(cfg, c, events[|events| - 1]) ==> !Resets(cfg, c, events[|events| - 1], path))
  }

  /** A leaf no operation owns is the very object it was at first, after any run in which no reset reaches it. */
  lemma {:induction false} UnresetLeafIsTheSameObject(cfg: Config, events: seq<Event>, path: seq<string>)
    requires WellDeclared(cfg) && IsLeafPath(cfg.schema, path) && Unowned(cfg, path) && NeverReset(cfg, events, path)
    ensures Read(Run(cfg, Start(cfg), events).store.authoritative.fields, path)
         == Read(Default(cfg.schema, Ref(0, [])), path)
  {
    if events != [] {
      var n := |events| - 1;
      var c := Run(cfg, Start(cfg), events[..n]);
      UnresetLeafIsTheSameObject(cfg, events[..n], path);
      FieldsAlwaysConform(cfg, events[..n]);
      if Enabled(cfg, c, events[n]) {
        FieldsAfterStep(cfg, c, events[n]);
        var offer, st := OfferOf(cfg, c, events[n]), c.store;
        if offer.Some? {
          var Offer(own, output) := offer.value;
          LeafAfterOperation(
            cfg.schema, own, output, PatchRef(st.next), st.authoritative.fields, Ref(st.next, ["fields"]), path);
        }
      }
    }
  }

  function ContentsOf(found: Found): Found {
    match found case Missing => Missing case Found(v) => Found(Strip(v))
  }

  /** The leaf is there, with the contents of its default. */
  ghost predicate AtDefault(s: Schema, fields: Value, path: seq<string>)
    requires IsLeafPath(s, path)
  {
    ContentsOf(Read(fields, path)) == Found(Strip(Default(SchemaAt(s, path), NoRef)))
  }

  /** Offering a leaf nothing, or its own default, leaves it at its default. */
  lemma UnownedOfferKeepsDefault(
      s: Schema, own: Own, output: Value, at: Ref, prev: Value, commitAt: Ref, path: seq<string>)
    requires s.Node? && Conforms(s, prev, true) && IsLeafPath(s, path) && !Owns(own, path) && AtDefault(s, prev, path)
    ensures AtDefault(s, PatchInto(prev, AcceptedPatch(s, own, output, at), commitAt), path)
  {
    var leaf, d := SchemaAt(s, path), Default(SchemaAt(s, path), RefAt(at, path));
    LeafAfterOperation(s, own, output, at, prev, commitAt, path);
    LeafSchemaIsNoNode(s, path);
    DefaultContents(leaf, RefAt(at, path), NoRef);
    OwnContentsStay(Read(prev, path).value, d, RefAt(commitAt, path));
  }

  lemma OwnContentsStay(was: Value, d: Value, at: Ref)
    requires !d.Obj? && Strip(was) == Strip(d)
    ensures Strip(PatchInto(was, d, at)) == Strip(was)
  {
  }

  /** After any run a leaf no operation owns has the contents of its default, whatever resets have reached it. */
  lemma {:induction false} UnownedLeafKeepsItsDefault(cfg: Config, events: seq<Event>, path: seq<string>)
    requires WellDeclared(cfg) && IsLeafPath(cfg.schema, path) && Unowned(cfg, path)
    ensures AtDefault(cfg.schema, Run(cfg, Start(cfg), events).store.authoritative.fields, path)
  {
    if events == [] {
      DefaultAtLeaf(cfg.schema, Ref(0, []), path);
      DefaultContents(SchemaAt(cfg.schema, path), RefAt(Ref(0, []), path), NoRef);
    } else {
      var n := |events| - 1;
      var c := Run(cfg, Start(cfg), events[..n]);
      UnownedLeafKeepsItsDefault(cfg, events[..n], path);
      FieldsAlwaysConform(cfg, events[..n]);
      if Enabled(cfg, c, events[n]) {
        FieldsAfterStep(cfg, c, events[n]);
        var offer, st := OfferOf(cfg, c, events[n]), c.store;
        if offer.Some? {
          var Offer(own, output) := offer.value;
          UnownedOfferKeepsDefault(
            cfg.schema, own, output, PatchRef(st.next), st.authoritative.fields, Ref(st.next, ["fields"]), path);
        }
      }
    }
  }

  /* ---- optimistic transitions belong to calls in flight ---- */

  ghost predicate HasTransition(c: Capability, id: nat, symbol: nat) {
    id in c.calls && c.calls[id] == MutatorCall(c.calls[id].name, Some(symbol))
  }

  /** Each pending transition has its one call in flight, and each call's transition is pending. */
  ghost predicate Paired(c: Capability) {
    && (forall t | t in c.store.pending :: exists id :: HasTransition(c, id, t.id))
    && (forall id, symbol | HasTransition(c, id, symbol) :: exists t | t in c.store.pending :: t.id == symbol)
    && (forall a, b, symbol | HasTransition(c, a, symbol) && HasTransition(c, b, symbol) :: a == b)
  }

  lemma PendingAfterStep(cfg: Config, c: Capability, e: Event)
    requires Declared(cfg, c) && Enabled(cfg, c, e)
    ensures var next, own := Step(cfg, c, e), c.store.pending;
            && (e.MutatorStart? && e.optimism.Update? ==>
                var operation := cfg.mutators[e.name];
                var n := Begin(c.store, operation).next;
                next.store.pending
                == own + [Transition(e.optimism.symbol, e.optimism.patch, InfoOf(n, operation, OptimisticMeta(n)))])
            && (e.MutatorSettle? && c.calls[e.id].transition.Some? ==>
                next.store.pending == Without(own, c.calls[e.id].transition.value))
            && (!(e.MutatorStart? && e.optimism.Update?) && !(e.MutatorSettle? && c.calls[e.id].transition.Some?) ==>
                next.store.pending == own)
  {
    if WriteOf(cfg, c, e).Some? {
      var w := WriteOf(cfg, c, e).value;
      AuthoritativeAfterCommit(c.store, w.fields, InfoOf(c.store.next, w.own, w.meta));
    }
    if e.MutatorSettle? && c.calls[e.id].transition.Some? {
      WithoutLaws(c.store.pending, c.calls[e.id].transition.value);
    }
  }

  /** How an event changes the calls in flight. */
  ghost function CallsAfter(c: Capability, e: Event): map<nat, Call> {
    match e
    case GetterStart(id, name) => c.calls[id := GetterCall(name)]
    case GetterSettle(id, _) => c.calls - {id}
    case MutatorSettle(id, _) => c.calls - {id}
    case MutatorStart(id, name, optimism) =>
      if optimism.Throws? then c.calls
      else c.calls[id := MutatorCall(name, if optimism.Update? then Some(optimism.symbol) else None)]
    case _ => c.calls
  }

  lemma CallsAfterStep(cfg: Config, c: Capability, e: Event)
    requires Declared(cfg, c) && Enabled(cfg, c, e)
    ensures var next := Step(cfg, c, e);
            && next.calls == CallsAfter(c, e)
            && next.latest == (if e.GetterStart? then c.latest[e.name := e.id] else c.latest)
            && next.nextCall == (if e.GetterStart? || e.MutatorStart? then e.id + 1 else c.nextCall)
  {
  }

  lemma StepKeepsPaired(cfg: Config, c: Capability, e: Event)
    requires Declared(cfg, c) && Enabled(cfg, c, e) && Paired(c)
    ensures Paired(Step(cfg, c, e))
  {
    PendingAfterStep(cfg, c, e);
    CallsAfterStep(cfg, c, e);
    var next := Step(cfg, c, e);
    if e.MutatorStart? && e.optimism.Update? {
      StartedPairs(c, next, e.id, e.name, e.optimism.symbol);
    } else if e.MutatorSettle? {
      if c.calls[e.id].transition.Some? { WithoutLaws(c.store.pending, c.calls[e.id].transition.value); }
      SettledPairs(c, next, e.id);
    } else {
      UnchangedPairs(c, next);
    }
  }

  lemma StartedPairs(c: Capability, next: Capability, id: nat, name: string, symbol: nat)
    requires Paired(c) && id !in c.calls && next.calls == c.calls[id := MutatorCall(name, Some(symbol))]
    requires forall t | t in c.store.pending :: t.id != symbol
    requires |next.store.pending| == |c.store.pending| + 1 && next.store.pending[|c.store.pending|].id == symbol
    requires next.store.pending == c.store.pending + [next.store.pending[|c.store.pending|]]
    ensures Paired(next)
  {
    assert HasTransition(next, id, symbol);
    forall a, s | HasTransition(next, a, s) && a != id ensures HasTransition(c, a, s) && s != symbol {
      assert HasTransition(c, a, s);
      var t :| t in c.store.pending && t.id == s;
    }
    forall t | t in c.store.pending ensures exists a :: HasTransition(next, a, t.id) {
      var a :| HasTransition(c, a, t.id);
      assert HasTransition(next, a, t.id);
    }
  }

  lemma UnchangedPairs(c: Capability, next: Capability)
    requires Paired(c) && next.store.pending == c.store.pending
    requires forall id, symbol :: HasTransition(next, id, symbol) <==> HasTransition(c, id, symbol)
    ensures Paired(next)
  {
  }

  lemma SettledPairs(c: Capability, next: Capability, id: nat)
    requires Paired(c) && id in c.calls && c.calls[id].MutatorCall? && next.calls == c.calls - {id}
    requires forall t :: t in next.store.pending <==> t in c.store.pending && c.calls[id].transition != Some(t.id)
    ensures Paired(next)
  {
    forall a, s ensures HasTransition(next, a, s) <==> HasTransition(c, a, s) && a != id {}
    forall t | t in next.store.pending ensures exists a :: HasTransition(next, a, t.id) {
      var a :| HasTransition(c, a, t.id);
      assert a != id;
      assert HasTransition(next, a, t.id);
    }
    forall a, s | HasTransition(next, a, s) ensures exists t | t in next.store.pending :: t.id == s {
      var t :| t in c.store.pending && t.id == s;
      assert HasTransition(c, id, s) ==> a == id;
      assert t in next.store.pending;
    }
  }

  lemma {:induction false} AlwaysPaired(cfg: Config, events: seq<Event>)
    requires WellDeclared(cfg)
    ensures Paired(Run(cfg, Start(cfg), events))
  {
    if events != [] {
      var n := |events| - 1;
      AlwaysPaired(cfg, events[..n]);
      var before := Run(cfg, Start(cfg), events[..n]);
      if Enabled(cfg, before, events[n]) { StepKeepsPaired(cfg, before, events[n]); }
    }
  }

  /** The event starts that very call: of the operation it names, with the optimistic transition it brings. */
  ghost predicate Starts(e: Event, id: nat, call: Call) {
    match call
    case GetterCall(name) => e == GetterStart(id, name)
    case MutatorCall(name, None) => e == MutatorStart(id, name, NoUpdate)
    case MutatorCall(name, Some(symbol)) => e.MutatorStart? && e == MutatorStart(id, name, e.optimism)
                                            && e.optimism.Update? && e.optimism.symbol == symbol
  }

  /** In every reachable state each call in flight is one that an event of the run started. */
  lemma {:induction false} CallsWereStarted(cfg: Config, events: seq<Event>, id: nat)
    requires WellDeclared(cfg) && id in Run(cfg, Start(cfg), events).calls
    ensures exists i | 0 <= i < |events| :: Starts(events[i], id, Run(cfg, Start(cfg), events).calls[id])
  {
    var n := |events| - 1;
    var c, e := Run(cfg, Start(cfg), events[..n]), events[n];
    if Enabled(cfg, c, e) { CallsAfterStep(cfg, c, e); }
    if (e.GetterStart? || e.MutatorStart?) && e.id == id && Enabled(cfg, c, e) {
      assert Starts(events[n], id, CallsAfter(c, e)[id]);
    } else {
      CallsWereStarted(cfg, events[..n], id);
      var i :| 0 <= i < n && Starts(events[..n][i], id, c.calls[id]);
      assert Starts(events[i], id, c.calls[id]);
    }
  }

  /* ---- loading ---- */

  /** Where the event takes a call of an operation that covers `path`; a subscription event is a fulfilled call. */
  ghost function StageOf(cfg: Config, c: Capability, e: Event, path: seq<string>): (stage: seq<Stage>)
    requires Declared(cfg, c)
    ensures |stage| <= 1
  {
    if !Enabled(cfg, c, e) then []
    else
      match e
      case GetterStart(_, name) => if Covers(cfg.getters[name], path) then [Stage(name, Started, false)] else []
      case GetterSettle(id, outcome) =>
        var name := c.calls[id].name;
        if c.latest[name] == id && Covers(cfg.getters[name], path) then [Stage(name, PhaseOf(outcome), false)] else []
      case MutatorStart(_, name, _) => if Covers(cfg.mutators[name], path) then [Stage(name, Started, true)] else []
      case MutatorSettle(id, outcome) =>
        var name := c.calls[id].name;
        if Covers(cfg.mutators[name], path) then [Stage(name, PhaseOf(outcome), true)] else []
      case SubscriptionEvent(name, _) =>
        if Covers(cfg.subscriptions[name], path) then [Stage(name, Fulfilled, false)] else []
      case SubscriptionStatus(_, _, _) => []
  }

  datatype Phase = Started | Fulfilled | Rejected
  datatype Stage = Stage(name: string, phase: Phase, mutator: bool)

  function PhaseOf(outcome: Outcome): Phase {
    if outcome.Produced? then Fulfilled else Rejected
  }

  function StatusOf(phase: Phase): (status: Value)
    ensures status == LOADING <==> phase.Started?
  {
    assert LOADING != SUCCESS by { assert |LOADING.s| == 7 && LOADING.s[0] == 'l' && SUCCESS.s[0] == 's'; }
    assert LOADING != FAILURE by { assert |LOADING.s| == 7 && |FAILURE.s| == 5; }
    match phase case Started => LOADING case Fulfilled => SUCCESS case Rejected => FAILURE
  }

  /** The last event that wrote a status at `path` started a mutator whose optimistic callback threw. */
  ghost predicate Stuck(cfg: Config, events: seq<Event>, path: seq<string>)
    requires WellDeclared(cfg)
  {
    events != [] &&
    var c, e := Run(cfg, Start(cfg), events[..|events| - 1]), events[|events| - 1];
    StuckAfter(cfg, c, e, path, Stuck(cfg, events[..|events| - 1], path))
  }

  ghost predicate StuckAfter(cfg: Config, c: Capability, e: Event, path: seq<string>, stuck: bool)
    requires Declared(cfg, c)
  {
    if StageOf(cfg, c, e, path) != [] then e.MutatorStart? && e.optimism.Throws? else stuck
  }

  /** A call in flight whose settlement will commit a status at `path`. */
  ghost predicate Awaits(cfg: Config, c: Capability, id: nat, path: seq<string>)
    requires Declared(cfg, c)
  {
    && id in c.calls
    && var name := c.calls[id].name;
       if c.calls[id].GetterCall? then c.latest[name] == id && Covers(cfg.getters[name], path)
       else Covers(cfg.mutators[name], path)
  }

  lemma AwaitsAfterStep(cfg: Config, c: Capability, e: Event, path: seq<string>, id: nat)
    requires Declared(cfg, c) && Enabled(cfg, c, e) && Awaits(cfg, c, id, path)
    requires StageOf(cfg, c, e, path) == [] && Declared(cfg, Step(cfg, c, e))
    ensures Awaits(cfg, Step(cfg, c, e), id, path)
  {
  }

  /** What the event says under `key` at `path`. */
  ghost function Said(cfg: Config, c: Capability, e: Event, path: seq<string>, key: string): Value
    requires Declared(cfg, c) && Enabled(cfg, c, e)
  {
    var w := WriteOf(cfg, c, e);
    if w.Some? && Covers(w.value.own, path) then Get(w.value.meta.props, key) else Undef
  }

  /** Under each key the event's metadata is merged in at the paths its operation declares, and at no other. */
  lemma MetaAfterStep(cfg: Config, c: Capability, e: Event, path: seq<string>, key: string)
    requires Declared(cfg, c) && Enabled(cfg, c, e) && Sound(cfg, c) && FieldPath(path) && key in META_KEYS
    ensures MetaAt(Step(cfg, c, e).store.authoritative.info, path, key)
         == PatchInto(MetaAt(c.store.authoritative.info, path, key), Said(cfg, c, e, path, key),
                      Child(RefAt(Ref(c.store.next, ["info"]), path), key))
  {
    StepWrites(cfg, c, e);
    var w, st := WriteOf(cfg, c, e), c.store;
    if w.Some? {
      var own, meta := w.value.own, w.value.meta;
      MetaAfterPatch(st.authoritative.info, own, meta, Ref(st.next, ["owned"]), Ref(st.next, ["info"]), path, key);
    }
  }

  /** What an event that takes a call to this stage says as status, source and optimistic. */
  function Saying(stage: seq<Stage>): (Value, Value, Value)
    requires |stage| <= 1
  {
    if stage == [] then (Undef, Undef, Undef)
    else
      (StatusOf(stage[0].phase),
       if stage[0].phase.Fulfilled? then Str(stage[0].name) else Undef,
       if stage[0].mutator && !stage[0].phase.Started? then Boolean(false) else Undef)
  }

  lemma StageIsSaid(cfg: Config, c: Capability, e: Event, path: seq<string>)
    requires Declared(cfg, c) && Enabled(cfg, c, e)
    ensures (Said(cfg, c, e, path, "status"), Said(cfg, c, e, path, "source"), Said(cfg, c, e, path, "optimistic"))
         == Saying(StageOf(cfg, c, e, path))
  {
    assert "status" != "source" by { assert "status"[1] == 't' && "source"[1] == 'o'; }
  }

  /** What stands at a path as status, source and optimistic. */
  function CallMeta(info: Value, path: seq<string>): (Value, Value, Value) {
    (StatusAt(info, path), MetaAt(info, path, "source"), MetaAt(info, path, "optimistic"))
  }

  function Over(was: Value, said: Value): Value {
    if said.Undef? then was else said
  }

  /** Each is replaced by what the stage says, or stays. */
  lemma StageAfterStep(cfg: Config, c: Capability, e: Event, path: seq<string>)
    requires Declared(cfg, c) && Enabled(cfg, c, e) && Sound(cfg, c) && FieldPath(path)
    ensures var was, said := CallMeta(c.store.authoritative.info, path), Saying(StageOf(cfg, c, e, path));
            CallMeta(Step(cfg, c, e).store.authoritative.info, path)
            == (Over(was.0, said.0), Over(was.1, said.1), Over(was.2, said.2))
  {
    var was, now := c.store.authoritative.info, Step(cfg, c, e).store.authoritative.info;
    StageIsSaid(cfg, c, e, path);
    assert StatusAt(now, path) == Over(StatusAt(was, path), Said(cfg, c, e, path, "status")) by {
      MetaAfterStep(cfg, c, e, path, "status");
    }
    assert MetaAt(now, path, "source") == Over(MetaAt(was, path, "source"), Said(cfg, c, e, path, "source")) by {
      MetaAfterStep(cfg, c, e, path, "source");
    }
    assert MetaAt(now, path, "optimistic")
        == Over(MetaAt(was, path, "optimistic"), Said(cfg, c, e, path, "optimistic")) by {
      MetaAfterStep(cfg, c, e, path, "optimistic");
    }
  }

  /** A path at "loading" has a call in flight that will settle it, or is stuck; a stuck path is at "loading". */
  ghost predicate LoadingExplained(cfg: Config, c: Capability, path: seq<string>, stuck: bool)
    requires Declared(cfg, c)
  {
    && (StatusAt(c.store.authoritative.info, path) == LOADING ==> stuck || exists id :: Awaits(cfg, c, id, path))
    && (stuck ==> StatusAt(c.store.authoritative.info, path) == LOADING)
  }

  lemma StepKeepsExplained(cfg: Config, c: Capability, e: Event, path: seq<string>, stuck: bool)
    requires Declared(cfg, c) && Enabled(cfg, c, e) && Sound(cfg, c) && FieldPath(path)
    requires LoadingExplained(cfg, c, path, stuck)
    ensures Declared(cfg, Step(cfg, c, e))
    ensures LoadingExplained(cfg, Step(cfg, c, e), path, StuckAfter(cfg, c, e, path, stuck))
  {
    StepKeepsDeclared(cfg, c, e);
    StageAfterStep(cfg, c, e, path);
    if StageOf(cfg, c, e, path) != [] {
      if e.GetterStart? || (e.MutatorStart? && !e.optimism.Throws?) {
        assert Awaits(cfg, Step(cfg, c, e), e.id, path);
      }
    } else if id :| Awaits(cfg, c, id, path) {
      AwaitsAfterStep(cfg, c, e, path, id);
    }
  }

  /**
   * After any run, a path at "loading" either has a call in flight that will settle it, or is stuck: its last
   * status came from a mutator start whose optimistic callback threw. And a stuck path is at "loading".
   */
  lemma {:induction false} LoadingMeaning(cfg: Config, events: seq<Event>, path: seq<string>)
    requires WellDeclared(cfg) && FieldPath(path)
    ensures LoadingExplained(cfg, Run(cfg, Start(cfg), events), path, Stuck(cfg, events, path))
  {
    if events == [] {
      assert StatusAt(Start(cfg).store.authoritative.info, path) == Undef;
    } else {
      var n := |events| - 1;
      var c := Run(cfg, Start(cfg), events[..n]);
      LoadingMeaning(cfg, events[..n], path);
      FieldsAlwaysConform(cfg, events[..n]);
      if Enabled(cfg, c, events[n]) { StepKeepsExplained(cfg, c, events[n], path, Stuck(cfg, events[..n], path)); }
    }
  }

  lemma PendingHasItsCall(c: Capability, i: nat)
    requires Paired(c) && i < |c.store.pending|
    ensures c.calls != map[]
  {
    var id :| HasTransition(c, id, c.store.pending[i].id);
  }

  /**
   * Quiescence. After any interleaving, once no call is in flight: nothing is pending, visible is the very object
   * that is authoritative, and a path is at "loading" exactly when it is stuck.
   */
  lemma Quiescence(cfg: Config, events: seq<Event>, path: seq<string>)
    requires WellDeclared(cfg) && FieldPath(path)
    requires Run(cfg, Start(cfg), events).calls == map[]
    ensures var st := Run(cfg, Start(cfg), events).store;
            && st.pending == []
            && st.visible == st.authoritative
            && (StatusAt(st.visible.info, path) == LOADING <==> Stuck(cfg, events, path))
  {
    var c := Run(cfg, Start(cfg), events);
    AlwaysPaired(cfg, events);
    FieldsAlwaysConform(cfg, events);
    LoadingMeaning(cfg, events, path);
    if c.store.pending != [] { PendingHasItsCall(c, 0); }
  }

  lemma {:induction false} StuckNeedsAThrow(cfg: Config, events: seq<Event>, path: seq<string>)
    requires WellDeclared(cfg) && Stuck(cfg, events, path)
    ensures exists i | 0 <= i < |events| :: events[i].MutatorStart? && events[i].optimism.Throws?
  {
    var n := |events| - 1;
    var c, e := Run(cfg, Start(cfg), events[..n]), events[n];
    if StageOf(cfg, c, e, path) == [] { StuckNeedsAThrow(cfg, events[..n], path); }
  }

  /** When no optimistic callback throws, a quiescent capability shows "loading" nowhere. */
  lemma QuietWhenNothingThrows(cfg: Config, events: seq<Event>, path: seq<string>)
    requires WellDeclared(cfg) && FieldPath(path)
    requires Run(cfg, Start(cfg), events).calls == map[]
    requires forall i | 0 <= i < |events| :: !(events[i].MutatorStart? && events[i].optimism.Throws?)
    ensures StatusAt(Run(cfg, Start(cfg), events).store.visible.info, path) != LOADING
  {
    Quiescence(cfg, events, path);
    if Stuck(cfg, events, path) { StuckNeedsAThrow(cfg, events, path); }
  }

  /** One throwing callback, and nothing after it, leaves its path at "loading" with no call in flight. */
  lemma ThrowingCallbackLeavesLoading(cfg: Config, name: string, path: seq<string>)
    requires WellDeclared(cfg) && FieldPath(path) && name in cfg.mutators && Covers(cfg.mutators[name], path)
    ensures var c := Run(cfg, Start(cfg), [MutatorStart(0, name, Throws)]);
            c.calls == map[] && StatusAt(c.store.visible.info, path) == LOADING
  {
    var events := [MutatorStart(0, name, Throws)];
    assert events[..0] == [];
    var c := Run(cfg, Start(cfg), events[..0]);
    assert c == Start(cfg) && Enabled(cfg, c, events[0]) && StageOf(cfg, c, events[0], path) != [];
    Quiescence(cfg, events, path);
  }

  /* ---- status, source and optimistic after a run ---- */

  /** The stages of the calls that concern `path`, in the order they were recorded. */
  ghost function StageLog(cfg: Config, events: seq<Event>, path: seq<string>): seq<Stage>
    requires WellDeclared(cfg)
  {
    if events == [] then []
    else
      var n := |events| - 1;
      StageLog(cfg, events[..n], path) + StageOf(cfg, Run(cfg, Start(cfg), events[..n]), events[n], path)
  }

  /** The operation that succeeded last. */
  function SourceOf(log: seq<Stage>): Value {
    if log == [] then Undef
    else
      var last := log[|log| - 1];
      if last.phase.Fulfilled? then Str(last.name) else SourceOf(log[..|log| - 1])
  }

  ghost predicate MutatorSettled(log: seq<Stage>) {
    exists i | 0 <= i < |log| :: log[i].mutator && !log[i].phase.Started?
  }

  /** Status, source and optimistic after the stages `log`. */
  ghost function Telling(log: seq<Stage>): (Value, Value, Value) {
    (if log == [] then Undef else StatusOf(log[|log| - 1].phase),
     SourceOf(log),
     if MutatorSettled(log) then Boolean(false) else Undef)
  }

  lemma TellingMore(log: seq<Stage>, stage: seq<Stage>)
    requires |stage| <= 1
    ensures var was, said := Telling(log), Saying(stage);
            Telling(log + stage) == (Over(was.0, said.0), Over(was.1, said.1), Over(was.2, said.2))
  {
    var all := log + stage;
    if stage == [] {
      assert all == log;
    } else {
      assert all[..|log|] == log && all[|log|] == stage[0];
      assert forall i | 0 <= i < |log| :: all[i] == log[i];
    }
  }

  /**
   * What stands at a path after any run: the status of the stage that calls concerning it reached last, as source
   * the operation that succeeded last, and `optimistic: false` from the first settlement of a mutator on.
   */
  lemma {:induction false} CallMetaAfterRun(cfg: Config, events: seq<Event>, path: seq<string>)
    requires WellDeclared(cfg) && FieldPath(path)
    ensures CallMeta(Run(cfg, Start(cfg), events).store.authoritative.info, path)
         == Telling(StageLog(cfg, events, path))
  {
    if events == [] {
      assert forall key: string :: MetaAt(Start(cfg).store.authoritative.info, path, key) == Undef;
    } else {
      var n := |events| - 1;
      var c, log := Run(cfg, Start(cfg), events[..n]), StageLog(cfg, events[..n], path);
      CallMetaAfterRun(cfg, events[..n], path);
      FieldsAlwaysConform(cfg, events[..n]);
      TellingMore(log, StageOf(cfg, c, events[n], path));
      if Enabled(cfg, c, events[n]) { StageAfterStep(cfg, c, events[n], path); }
    }
  }

  /**
   * A settlement of an operation that declares `own`: an output's accepted part is merged into the fields, a failure
   * leaves them alone; and the outcome shows as the status of every path that the operation declares.
   */
  ghost predicate Settles(cfg: Config, was: Store, now: Store, own: Own, outcome: Outcome)
    requires cfg.schema.Node?
  {
    && now.authoritative.fields
       == (if outcome.Failed? then was.authoritative.fields
           else PatchInto(was.authoritative.fields, AcceptedPatch(cfg.schema, own, outcome.output, PatchRef(was.next)),
                          Ref(was.next, ["fields"])))
    && forall path | FieldPath(path) && Covers(own, path) ::
         StatusAt(now.authoritative.info, path) == if outcome.Failed? then FAILURE else SUCCESS
  }

  /** Every settlement does, but a getter's that is not of its last start; so does every event of a subscription. */
  lemma SettlementsLand(cfg: Config, c: Capability, e: Event)
    requires Declared(cfg, c) && Enabled(cfg, c, e) && Sound(cfg, c)
    ensures var was, now := c.store, Step(cfg, c, e).store;
            match e
            case GetterSettle(id, outcome) =>
              var name := c.calls[id].name;
              if c.latest[name] == id then Settles(cfg, was, now, cfg.getters[name], outcome) else now == was
            case MutatorSettle(id, outcome) => Settles(cfg, was, now, cfg.mutators[c.calls[id].name], outcome)
            case SubscriptionEvent(name, output) => Settles(cfg, was, now, cfg.subscriptions[name], Produced(output))
            case _ => now.authoritative.fields == was.authoritative.fields
  {
    FieldsAfterStep(cfg, c, e);
    forall path | FieldPath(path) && StageOf(cfg, c, e, path) != []
      ensures StatusAt(Step(cfg, c, e).store.authoritative.info, path) == StatusOf(StageOf(cfg, c, e, path)[0].phase)
    {
      StageAfterStep(cfg, c, e, path);
    }
    match e
    case GetterSettle(id, _) =>
      var name := c.calls[id].name;
      assert c.latest[name] == id ==> forall path | Covers(cfg.getters[name], path) :: StageOf(cfg, c, e, path) != [];
    case MutatorSettle(id, _) =>
      assert forall path | Covers(cfg.mutators[c.calls[id].name], path) :: StageOf(cfg, c, e, path) != [];
    case SubscriptionEvent(name, _) =>
      assert forall path | Covers(cfg.subscriptions[name], path) :: StageOf(cfg, c, e, path) != [];
    case _ =>
  }

  /* ---- optimistic metadata is visible while its call is in flight ---- */

  /** The transition says "loading" and "optimistic" at the paths that `own` declares. */
  ghost predicate MarkedFor(t: Transition, own: Own) {
    NoMeta(own) && exists n :: t.infoPatch == InfoOf(n, own, OptimisticMeta(n))
  }

  /** What it says there under "status" or "optimistic". */
  function Mark(key: string): Value {
    if key == "status" then LOADING else Boolean(true)
  }

  lemma MarkedCommit(state: State, t: Transition, own: Own, stamp: nat, path: seq<string>, key: string)
    requires MarkedFor(t, own) && InfoTree(state.info) && FieldPath(path) && (key == "status" || key == "optimistic")
    ensures var info := CommitState(state, t.fieldsPatch, t.infoPatch, stamp).info;
            && InfoTree(info)
            && MetaAt(info, path, key) == if Covers(own, path) then Mark(key) else MetaAt(state.info, path, key)
  {
    var n :| t.infoPatch == InfoOf(n, own, OptimisticMeta(n));
    MetaAfterPatch(state.info, own, OptimisticMeta(n), Ref(n, ["owned"]), Ref(stamp, ["info"]), path, key);
  }

  ghost predicate CoveredBy(owns: seq<Own>, path: seq<string>) {
    exists i | 0 <= i < |owns| :: Covers(owns[i], path)
  }

  lemma {:induction false} ShownMeta(
      state: State, shown: seq<Transition>, owns: seq<Own>, stamp: nat, path: seq<string>, key: string)
    requires |shown| == |owns| && forall i | 0 <= i < |shown| :: MarkedFor(shown[i], owns[i])
    requires InfoTree(state.info) && FieldPath(path) && (key == "status" || key == "optimistic")
    ensures MetaAt(Project(state, shown, stamp).info, path, key)
         == if CoveredBy(owns, path) then Mark(key) else MetaAt(state.info, path, key)
    decreases |shown|
  {
    if shown != [] {
      var t := shown[0];
      MarkedCommit(state, t, owns[0], stamp, path, key);
      ShownMeta(CommitState(state, t.fieldsPatch, t.infoPatch, stamp), shown[1..], owns[1..], stamp + 1, path, key);
      if i :| 0 <= i < |owns| - 1 && Covers(owns[1..][i], path) {
        assert Covers(owns[i + 1], path);
      } else if i :| 0 < i < |owns| && Covers(owns[i], path) {
        assert Covers(owns[1..][i - 1], path);
      }
    }
  }

  /** The transition is marked for the operation of its call. */
  ghost predicate Marks(cfg: Config, c: Capability, id: nat, t: Transition)
    requires Declared(cfg, c)
  {
    HasTransition(c, id, t.id) && MarkedFor(t, cfg.mutators[c.calls[id].name])
  }

  ghost predicate Marked(cfg: Config, c: Capability)
    requires Declared(cfg, c)
  {
    forall t | t in c.store.pending :: exists id :: Marks(cfg, c, id, t)
  }

  lemma StepKeepsMarked(cfg: Config, c: Capability, e: Event)
    requires Declared(cfg, c) && Enabled(cfg, c, e) && Marked(cfg, c)
    ensures Declared(cfg, Step(cfg, c, e)) && Marked(cfg, Step(cfg, c, e))
  {
    StepKeepsDeclared(cfg, c, e);
    PendingAfterStep(cfg, c, e);
    var next := Step(cfg, c, e);
    if e.MutatorSettle? && c.calls[e.id].transition.Some? {
      WithoutLaws(c.store.pending, c.calls[e.id].transition.value);
    }
    forall t | t in next.store.pending ensures exists id :: Marks(cfg, next, id, t) {
      if t in c.store.pending {
        var id :| Marks(cfg, c, id, t);
        assert Marks(cfg, next, id, t);
      } else {
        assert Marks(cfg, next, e.id, t);
      }
    }
  }

  lemma {:induction false} AlwaysMarked(cfg: Config, events: seq<Event>)
    requires WellDeclared(cfg)
    ensures Marked(cfg, Run(cfg, Start(cfg), events))
  {
    if events != [] {
      var n := |events| - 1;
      AlwaysMarked(cfg, events[..n]);
      var before := Run(cfg, Start(cfg), events[..n]);
      if Enabled(cfg, before, events[n]) { StepKeepsMarked(cfg, before, events[n]); }
    }
  }

  ghost function CallOf(cfg: Config, c: Capability, t: Transition): (id: nat)
    requires Declared(cfg, c) && exists id :: Marks(cfg, c, id, t)
    ensures Marks(cfg, c, id, t)
  {
    var id :| Marks(cfg, c, id, t);
    id
  }

  /** The calls of the pending transitions. */
  ghost function CallsOf(cfg: Config, c: Capability): (ids: seq<nat>)
    requires Declared(cfg, c) && Marked(cfg, c)
    ensures |ids| == |c.store.pending|
    ensures forall i | 0 <= i < |ids| :: Marks(cfg, c, ids[i], c.store.pending[i])
    ensures forall i | 0 <= i < |ids| :: HasTransition(c, ids[i], c.store.pending[i].id)
  {
    var pending := c.store.pending;
    assert forall i | 0 <= i < |pending| :: pending[i] in pending;
    seq(|pending|, i requires 0 <= i < |pending| => CallOf(cfg, c, pending[i]))
  }

  /** The call is in flight, with an optimistic transition, and its operation covers the path. */
  ghost predicate Anticipates(cfg: Config, c: Capability, id: nat, path: seq<string>)
    requires Declared(cfg, c)
  {
    && id in c.calls && c.calls[id].MutatorCall? && c.calls[id].transition.Some?
    && Covers(cfg.mutators[c.calls[id].name], path)
  }

  lemma VisibleMeta(cfg: Config, c: Capability, ids: seq<nat>, path: seq<string>, key: string)
    requires Declared(cfg, c) && Sound(cfg, c) && FieldPath(path) && (key == "status" || key == "optimistic")
    requires |ids| == |c.store.pending| && forall i | 0 <= i < |ids| :: Marks(cfg, c, ids[i], c.store.pending[i])
    requires forall id | Anticipates(cfg, c, id, path) :: id in ids
    ensures MetaAt(c.store.visible.info, path, key)
         == if exists id :: Anticipates(cfg, c, id, path)
            then Mark(key) else MetaAt(c.store.authoritative.info, path, key)
  {
    var owns := seq(|ids|, i requires 0 <= i < |ids| => OwnAt(cfg, c, ids, i));
    assert forall i | 0 <= i < |ids| :: owns[i] == OwnAt(cfg, c, ids, i);
    ShownMeta(c.store.authoritative, c.store.pending, owns, c.store.projectedAt, path, key);
    CoveredIffAnticipated(cfg, c, ids, owns, path);
  }

  ghost function OwnAt(cfg: Config, c: Capability, ids: seq<nat>, i: nat): (own: Own)
    requires Declared(cfg, c) && i < |ids| == |c.store.pending| && Marks(cfg, c, ids[i], c.store.pending[i])
    ensures MarkedFor(c.store.pending[i], own)
  {
    cfg.mutators[c.calls[ids[i]].name]
  }

  lemma CoveredIffAnticipated(cfg: Config, c: Capability, ids: seq<nat>, owns: seq<Own>, path: seq<string>)
    requires Declared(cfg, c) && |ids| == |owns| == |c.store.pending|
    requires forall i | 0 <= i < |ids| :: Marks(cfg, c, ids[i], c.store.pending[i])
    requires forall i | 0 <= i < |ids| :: owns[i] == OwnAt(cfg, c, ids, i)
    requires forall id | Anticipates(cfg, c, id, path) :: id in ids
    ensures CoveredBy(owns, path) <==> exists id :: Anticipates(cfg, c, id, path)
  {
    if i :| 0 <= i < |owns| && Covers(owns[i], path) {
      assert owns[i] == OwnAt(cfg, c, ids, i);
      assert Anticipates(cfg, c, ids[i], path);
    }
    if id :| Anticipates(cfg, c, id, path) {
      var i :| 0 <= i < |ids| && ids[i] == id;
      assert owns[i] == OwnAt(cfg, c, ids, i);
    }
  }

  lemma EachHasACall(c: Capability, ids: seq<nat>)
    requires Paired(c) && |ids| == |c.store.pending|
    requires forall i | 0 <= i < |ids| :: HasTransition(c, ids[i], c.store.pending[i].id)
    ensures forall id | id in c.calls && c.calls[id].MutatorCall? && c.calls[id].transition.Some? :: id in ids
  {
    forall id | id in c.calls && c.calls[id].MutatorCall? && c.calls[id].transition.Some? ensures id in ids {
      var symbol := c.calls[id].transition.value;
      assert HasTransition(c, id, symbol);
      var t :| t in c.store.pending && t.id == symbol;
      var i :| 0 <= i < |ids| && c.store.pending[i] == t;
      assert HasTransition(c, ids[i], symbol);
    }
  }

  /**
   * While a mutator with an optimistic update is in flight, every path it declares is visible as loading and
   * optimistic, whatever has been committed there since; no other path is ever visible as optimistic, and there
   * visible and authoritative status agree.
   */
  lemma OptimisticWhileInFlight(cfg: Config, events: seq<Event>, path: seq<string>)
    requires WellDeclared(cfg) && FieldPath(path)
    ensures var c := Run(cfg, Start(cfg), events);
            var anticipated := exists id :: Anticipates(cfg, c, id, path);
            && (MetaAt(c.store.visible.info, path, "optimistic") == Boolean(true) <==> anticipated)
            && StatusAt(c.store.visible.info, path)
               == if anticipated then LOADING else StatusAt(c.store.authoritative.info, path)
  {
    FieldsAlwaysConform(cfg, events);
    AlwaysPaired(cfg, events);
    AlwaysMarked(cfg, events);
    CallMetaAfterRun(cfg, events, path);
    var c := Run(cfg, Start(cfg), events);
    var ids := CallsOf(cfg, c);
    EachHasACall(c, ids);
    VisibleMeta(cfg, c, ids, path, "status");
    VisibleMeta(cfg, c, ids, path, "optimistic");
  }

  /* ---- errors ---- */

  /** A settlement that failed, by the operation's name. */
  datatype Failure = Failure(name: string, error: Value)

  /** The failure the event records at `path`, if any: of a getter's last start, or of any mutator call. */
  ghost function FailureOf(cfg: Config, c: Capability, e: Event, path: seq<string>): seq<Failure>
    requires Declared(cfg, c)
  {
    if !Enabled(cfg, c, e) then []
    else
      match e
      case GetterSettle(id, Failed(error)) =>
        var name := c.calls[id].name;
        if c.latest[name] == id && Covers(cfg.getters[name], path) then [Failure(name, error)] else []
      case MutatorSettle(id, Failed(error)) =>
        var name := c.calls[id].name;
        if Covers(cfg.mutators[name], path) then [Failure(name, error)] else []
      case _ => []
  }

  /** The failures of a run that concern `path`, in the order they were recorded. */
  ghost function FailureLog(cfg: Config, events: seq<Event>, path: seq<string>): seq<Failure>
    requires WellDeclared(cfg)
  {
    if events == [] then []
    else
      var n := |events| - 1;
      FailureLog(cfg, events[..n], path) + FailureOf(cfg, Run(cfg, Start(cfg), events[..n]), events[n], path)
  }

  /** The recorded error value: each failure's error is patched into the one before it. */
  function Accumulated(log: seq<Failure>): Value
    requires log != []
  {
    var n := |log| - 1;
    if n == 0 then log[0].error else PatchInto(Accumulated(log[..n]), log[n].error, NoRef)
  }

  /** As plain `Error` objects are: records without enumerable keys. */
  ghost predicate AllPlain(log: seq<Failure>) {
    forall i | 0 <= i < |log| :: log[i].error.Obj? && log[i].error.props == map[]
  }

  /** What stands under "error" after the failures `log`. */
  ghost predicate Records(m: Value, log: seq<Failure>) {
    match m
    case Undef => log == []
    case Obj(_, props) =>
      && log != [] && props.Keys == {"operator", "error"}
      && props["operator"] == Str(log[|log| - 1].name)
      && Strip(props["error"]) == Strip(Accumulated(log))
      && (AllPlain(log) ==> props["error"] == log[0].error)
    case _ => false
  }

  ghost function RecordedError(cfg: Config, events: seq<Event>, path: seq<string>): Value
    requires WellDeclared(cfg)
  {
    MetaAt(Run(cfg, Start(cfg), events).store.authoritative.info, path, "error")
  }

  /** Only a failure touches what is recorded, and then patches its own record into it. */
  lemma ErrorAfterStep(cfg: Config, c: Capability, e: Event, path: seq<string>)
    requires Declared(cfg, c) && Enabled(cfg, c, e) && Sound(cfg, c) && FieldPath(path)
    ensures var was, failure := MetaAt(c.store.authoritative.info, path, "error"), FailureOf(cfg, c, e, path);
            var at := Child(RefAt(Ref(c.store.next, ["info"]), path), "error");
            MetaAt(Step(cfg, c, e).store.authoritative.info, path, "error")
            == if failure == [] then was
               else PatchInto(was, ErrorOf(c.store.next, failure[0].name, failure[0].error), at)
  {
    MetaAfterStep(cfg, c, e, path, "error");
  }

  lemma PatchedError(m: Value, next: Failure, stamp: nat, at: Ref)
    requires m.Obj? && m.props.Keys == {"operator", "error"} && m.props["operator"].Str?
    ensures var r := PatchInto(m, ErrorOf(stamp, next.name, next.error), at);
            && r.Obj? && r.props.Keys == {"operator", "error"} && r.props["operator"] == Str(next.name)
            && r.props["error"] == PatchInto(m.props["error"], next.error, Child(at, "error"))
  {
    var patch := ErrorOf(stamp, next.name, next.error);
    MergedSlots(m, patch, at);
    assert Slot(m.props, patch, at, "operator")
        == PatchInto(m.props["operator"], Str(next.name), Child(at, "operator"));
  }

  lemma NextErrorIsRecorded(m: Value, log: seq<Failure>, next: Failure, stamp: nat, at: Ref)
    requires Records(m, log)
    ensures Records(PatchInto(m, ErrorOf(stamp, next.name, next.error), at), log + [next])
  {
    var all := log + [next];
    if log != [] {
      assert all[..|log|] == log && all[0] == log[0] && all[|log|] == next;
      var was := m.props["error"];
      PatchedError(m, next, stamp, at);
      PatchIntoRefinesMerge(was, next.error, Child(at, "error"));
      PatchIntoRefinesMerge(Accumulated(log), next.error, NoRef);
      if AllPlain(all) {
        assert forall i | 0 <= i < |log| :: all[i] == log[i];
        PlainIsAbsorbed(was, next.error, Child(at, "error"));
      }
    }
  }

  lemma PlainIsAbsorbed(was: Value, plain: Value, at: Ref)
    requires was.Obj? && was.props == map[] && plain.Obj? && plain.props == map[]
    ensures PatchInto(was, plain, at) == was
  {
    MergedSlots(was, plain, at);
  }

  /**
   * The error record at a path after any run. It is there exactly when some failure was recorded at the path; it
   * names the operation that failed last; and its error is the failures' errors patched into one another -- so
   * that with plain `Error` objects it is, for good, the very first one.
   */
  lemma {:induction false} ErrorAfterRun(cfg: Config, events: seq<Event>, path: seq<string>)
    requires WellDeclared(cfg) && FieldPath(path)
    ensures Records(RecordedError(cfg, events, path), FailureLog(cfg, events, path))
    ensures !RecordedError(cfg, events, path).Undef? <==> FailureLog(cfg, events, path) != []
  {
    if events != [] {
      var n := |events| - 1;
      var c, log := Run(cfg, Start(cfg), events[..n]), FailureLog(cfg, events[..n], path);
      ErrorAfterRun(cfg, events[..n], path);
      var failure := FailureOf(cfg, c, events[n], path);
      FieldsAlwaysConform(cfg, events[..n]);
      assert FailureLog(cfg, events, path) == log + failure && log + [] == log;
      if Enabled(cfg, c, events[n]) {
        ErrorAfterStep(cfg, c, events[n], path);
        if failure != [] {
          var at := Child(RefAt(Ref(c.store.next, ["info"]), path), "error");
          NextErrorIsRecorded(RecordedError(cfg, events[..n], path), log, failure[0], c.store.next, at);
          assert failure == [failure[0]];
        }
      }
    } else {
      assert RecordedError(cfg, [], path).Undef?;
    }
  }

  /** The record has the contents of the latest error. */
  ghost predicate RecordsLatest(m: Value, log: seq<Failure>)
    requires log != []
  {
    m.Obj? && "error" in m.props && Strip(m.props["error"]) == Strip(log[|log| - 1].error)
  }

  /** The latest error is the only one, or it overwrites what the failures before it had left. */
  ghost predicate LatestOverwrites(log: seq<Failure>)
    requires log != []
  {
    var n := |log| - 1;
    n == 0 || Overwrites(Accumulated(log[..n]), log[n].error)
  }

  /** The record has the contents of the latest error exactly when that is so. */
  lemma RecordedIsLatestIff(cfg: Config, events: seq<Event>, path: seq<string>)
    requires WellDeclared(cfg) && FieldPath(path) && FailureLog(cfg, events, path) != []
    ensures var log := FailureLog(cfg, events, path);
            RecordsLatest(RecordedError(cfg, events, path), log) <==> LatestOverwrites(log)
  {
    ErrorAfterRun(cfg, events, path);
    LatestIsRecordedIff(RecordedError(cfg, events, path), FailureLog(cfg, events, path));
  }

  lemma LatestIsRecordedIff(m: Value, log: seq<Failure>)
    requires log != [] && Records(m, log)
    ensures RecordsLatest(m, log) <==> LatestOverwrites(log)
  {
    var n := |log| - 1;
    if n > 0 {
      PatchIntoRefinesMerge(Accumulated(log[..n]), log[n].error, NoRef);
      ContentsReplacedIffOverwritten(Accumulated(log[..n]), log[n].error);
    }
  }

  /**
   * After one more failure, with another error that existed before, the recorded error is that very value exactly
   * when it is not `undefined` and not both are records. Otherwise the old one stays, or a third takes in both.
   */
  lemma LatestObjectIsRecordedIff(cfg: Config, events: seq<Event>, e: Event, path: seq<string>)
    requires WellDeclared(cfg) && FieldPath(path) && FailureLog(cfg, events, path) != []
    requires FailureOf(cfg, Run(cfg, Start(cfg), events), e, path) != []
    requires var c := Run(cfg, Start(cfg), events);
             var error, m := FailureOf(cfg, c, e, path)[0].error, RecordedError(cfg, events, path);
             Below(error, c.store.next) && (m.Obj? && "error" in m.props ==> m.props["error"] != error)
    ensures var was, m := RecordedError(cfg, events, path), RecordedError(cfg, events + [e], path);
            var error := FailureOf(cfg, Run(cfg, Start(cfg), events), e, path)[0].error;
            && was.Obj? && "error" in was.props && m.Obj? && "error" in m.props
            && (m.props["error"] == error <==> !error.Undef? && !(was.props["error"].Obj? && IsRecord(error)))
  {
    assert (events + [e])[..|events|] == events;
    var c := Run(cfg, Start(cfg), events);
    FieldsAlwaysConform(cfg, events);
    ErrorAfterRun(cfg, events, path);
    ErrorAfterStep(cfg, c, e, path);
    var was, failure := RecordedError(cfg, events, path), FailureOf(cfg, c, e, path)[0];
    var at := Child(RefAt(Ref(c.store.next, ["info"]), path), "error");
    RefAtStamp(Ref(c.store.next, ["info"]), path);
    PatchedError(was, failure, c.store.next, at);
    if was.props["error"].Obj? && IsRecord(failure.error) {
      MergedSlots(was.props["error"], failure.error, Child(at, "error"));
    }
  }

  lemma {:induction false} RefAtStamp(at: Ref, path: seq<string>)
    requires at.Ref?
    ensures RefAt(at, path) == Ref(at.stamp, at.path + path)
    decreases |path|
  {
    if path != [] { RefAtStamp(Child(at, path[0]), path[1..]); }
  }

  lemma LogGrows(cfg: Config, events: seq<Event>, path: seq<string>)
    requires WellDeclared(cfg) && events != []
    ensures FailureLog(cfg, events[..|events| - 1], path) <= FailureLog(cfg, events, path)
  {
  }

  lemma {:induction false} FailuresRemain(cfg: Config, events: seq<Event>, more: seq<Event>, path: seq<string>)
    requires WellDeclared(cfg)
    ensures FailureLog(cfg, events, path) <= FailureLog(cfg, events + more, path)
  {
    if more == [] {
      assert events + more == events;
    } else {
      var n, all := |more| - 1, events + more;
      FailuresRemain(cfg, events, more[..n], path);
      LogGrows(cfg, all, path);
      assert all[..|all| - 1] == events + more[..n];
    }
  }

  /**
   * What is recorded as a path's error, once there is one, is there for good: no event of any kind clears it. The
   * type documents that the next success clears it, but the success merely does not mention it.
   */
  lemma ErrorIsNeverCleared(cfg: Config, events: seq<Event>, more: seq<Event>, path: seq<string>)
    requires WellDeclared(cfg) && FieldPath(path) && !RecordedError(cfg, events, path).Undef?
    ensures !RecordedError(cfg, events + more, path).Undef?
  {
    ErrorAfterRun(cfg, events, path);
    ErrorAfterRun(cfg, events + more, path);
    FailuresRemain(cfg, events, more, path);
  }

  /** A settlement or subscription event that commits "success" at `path`. */
  ghost predicate Succeeds(cfg: Config, c: Capability, e: Event, path: seq<string>)
    requires Declared(cfg, c)
  {
    && Enabled(cfg, c, e)
    && match e
       case GetterSettle(id, Produced(_)) =>
         c.latest[c.calls[id].name] == id && Covers(cfg.getters[c.calls[id].name], path)
       case MutatorSettle(id, Produced(_)) => Covers(cfg.mutators[c.calls[id].name], path)
       case SubscriptionEvent(name, _) => Covers(cfg.subscriptions[name], path)
       case _ => false
  }

  /** Any success commits its status beside the error of the failure before it, which stays the same object. */
  lemma SuccessKeepsTheOldError(cfg: Config, c: Capability, e: Event, path: seq<string>)
    requires Declared(cfg, c) && Sound(cfg, c) && FieldPath(path) && Succeeds(cfg, c, e, path)
    ensures var info := Step(cfg, c, e).store.authoritative.info;
            && StatusAt(info, path) == SUCCESS
            && MetaAt(info, path, "error") == MetaAt(c.store.authoritative.info, path, "error")
  {
    StageAfterStep(cfg, c, e, path);
    ErrorAfterStep(cfg, c, e, path);
  }

  /** One mutator's call that comes to `outcome`, with nothing in between. */
  function OneCall(id: nat, name: string, outcome: Outcome): seq<Event> {
    [MutatorStart(id, name, NoUpdate), MutatorSettle(id, outcome)]
  }

  lemma AfterStart(cfg: Config, events: seq<Event>, id: nat, name: string, path: seq<string>)
    requires WellDeclared(cfg) && name in cfg.mutators && id >= Run(cfg, Start(cfg), events).nextCall
    ensures var all := events + [MutatorStart(id, name, NoUpdate)];
            var d := Run(cfg, Start(cfg), all);
            && d.nextCall == id + 1 && id in d.calls && d.calls[id] == MutatorCall(name, None)
            && FailureLog(cfg, all, path) == FailureLog(cfg, events, path)
  {
    var e := MutatorStart(id, name, NoUpdate);
    assert (events + [e])[..|events|] == events;
    assert Enabled(cfg, Run(cfg, Start(cfg), events), e);
  }

  lemma AfterSettle(cfg: Config, events: seq<Event>, id: nat, outcome: Outcome, path: seq<string>)
    requires WellDeclared(cfg) && FieldPath(path) && id in Run(cfg, Start(cfg), events).calls
    requires var call := Run(cfg, Start(cfg), events).calls[id];
             call.MutatorCall? && call.name in cfg.mutators && Covers(cfg.mutators[call.name], path)
    ensures var all, name := events + [MutatorSettle(id, outcome)], Run(cfg, Start(cfg), events).calls[id].name;
            && Run(cfg, Start(cfg), all).nextCall == Run(cfg, Start(cfg), events).nextCall
            && FailureLog(cfg, all, path)
               == FailureLog(cfg, events, path) + (if outcome.Failed? then [Failure(name, outcome.error)] else [])
            && (outcome.Produced? ==> StatusAt(Run(cfg, Start(cfg), all).store.authoritative.info, path) == SUCCESS)
  {
    var e, d := MutatorSettle(id, outcome), Run(cfg, Start(cfg), events);
    assert (events + [e])[..|events|] == events;
    assert Enabled(cfg, d, e) && Run(cfg, Start(cfg), events + [e]) == Step(cfg, d, e);
    FieldsAlwaysConform(cfg, events);
    if outcome.Produced? { SuccessKeepsTheOldError(cfg, d, e, path); }
  }

  lemma AfterOneCall(cfg: Config, events: seq<Event>, id: nat, name: string, outcome: Outcome, path: seq<string>)
    requires WellDeclared(cfg) && FieldPath(path) && name in cfg.mutators && Covers(cfg.mutators[name], path)
    requires id >= Run(cfg, Start(cfg), events).nextCall
    ensures var all := events + OneCall(id, name, outcome);
            && Run(cfg, Start(cfg), all).nextCall == id + 1
            && FailureLog(cfg, all, path)
               == FailureLog(cfg, events, path) + (if outcome.Failed? then [Failure(name, outcome.error)] else [])
            && (outcome.Produced? ==> StatusAt(Run(cfg, Start(cfg), all).store.authoritative.info, path) == SUCCESS)
  {
    var started := events + [MutatorStart(id, name, NoUpdate)];
    AfterStart(cfg, events, id, name, path);
    AfterSettle(cfg, started, id, outcome, path);
    assert events + OneCall(id, name, outcome) == started + [MutatorSettle(id, outcome)];
  }

  /** One failure and then a success: the status is "success", and the error is still there. */
  lemma ErrorOutlivesSuccess(cfg: Config, name: string, error: Value, output: Value, path: seq<string>)
    requires WellDeclared(cfg) && FieldPath(path) && name in cfg.mutators && Covers(cfg.mutators[name], path)
    ensures var events := OneCall(0, name, Failed(error)) + OneCall(1, name, Produced(output));
            var m := RecordedError(cfg, events, path);
            && StatusAt(Run(cfg, Start(cfg), events).store.authoritative.info, path) == SUCCESS
            && m.Obj? && m.props.Keys == {"operator", "error"}
            && m.props["operator"] == Str(name) && Strip(m.props["error"]) == Strip(error)
  {
    var one := OneCall(0, name, Failed(error));
    assert [] + one == one;
    AfterOneCall(cfg, [], 0, name, Failed(error), path);
    AfterOneCall(cfg, one, 1, name, Produced(output), path);
    ErrorAfterRun(cfg, one + OneCall(1, name, Produced(output)), path);
  }

  function TwoFailures(first: string, error: Value, second: string, later: Value): seq<Event> {
    OneCall(0, first, Failed(error)) + OneCall(1, second, Failed(later))
  }

  lemma LogOfTwoFailures(cfg: Config, first: string, error: Value, second: string, later: Value, path: seq<string>)
    requires WellDeclared(cfg) && FieldPath(path) && first in cfg.mutators && second in cfg.mutators
    requires Covers(cfg.mutators[first], path) && Covers(cfg.mutators[second], path)
    ensures FailureLog(cfg, TwoFailures(first, error, second, later), path)
         == [Failure(first, error), Failure(second, later)]
  {
    var one := OneCall(0, first, Failed(error));
    assert [] + one == one;
    AfterOneCall(cfg, [], 0, first, Failed(error), path);
    AfterOneCall(cfg, one, 1, second, Failed(later), path);
  }

  /** Two failures with plain errors: the record names the second operation beside the error of the first. */
  lemma FirstPlainErrorStays(cfg: Config, first: string, error: Value, second: string, later: Value, path: seq<string>)
    requires WellDeclared(cfg) && FieldPath(path) && first in cfg.mutators && second in cfg.mutators
    requires Covers(cfg.mutators[first], path) && Covers(cfg.mutators[second], path)
    requires AllPlain([Failure(first, error), Failure(second, later)])
    ensures var m := RecordedError(cfg, TwoFailures(first, error, second, later), path);
            m.Obj? && m.props == map["operator" := Str(second), "error" := error]
  {
    LogOfTwoFailures(cfg, first, error, second, later, path);
    ErrorAfterRun(cfg, TwoFailures(first, error, second, later), path);
  }

  /* ---- connections ---- */

  /** What a connection reported: its status, and the failure if it reported an error. */
  datatype Report = Report(status: string, failure: seq<Failure>)

  /** The report the event records at `path`, if any. */
  ghost function ReportOf(cfg: Config, c: Capability, e: Event, path: seq<string>): seq<Report>
    requires Declared(cfg, c)
  {
    if Enabled(cfg, c, e) && e.SubscriptionStatus? && Covers(cfg.subscriptions[e.name], path)
    then [ReportFor(e.name, e.status, e.error)] else []
  }

  ghost function ReportLog(cfg: Config, events: seq<Event>, path: seq<string>): seq<Report>
    requires WellDeclared(cfg)
  {
    if events == [] then []
    else
      var n := |events| - 1;
      ReportLog(cfg, events[..n], path) + ReportOf(cfg, Run(cfg, Start(cfg), events[..n]), events[n], path)
  }

  /** The errors among the reports, in order. */
  function ErrorsOf(log: seq<Report>): seq<Failure> {
    if log == [] then [] else ErrorsOf(log[..|log| - 1]) + log[|log| - 1].failure
  }

  /** What stands under "subscription" after the reports `log`. */
  ghost predicate Connects(m: Value, log: seq<Report>) {
    match m
    case Undef => log == []
    case Obj(_, props) =>
      && log != [] && "status" in props && props["status"] == Str(log[|log| - 1].status)
      && ("error" in props <==> ErrorsOf(log) != [])
      && Records(Get(props, "error"), ErrorsOf(log))
    case _ => false
  }

  ghost function ConnectionAt(cfg: Config, events: seq<Event>, path: seq<string>): Value
    requires WellDeclared(cfg)
  {
    MetaAt(Run(cfg, Start(cfg), events).store.authoritative.info, path, "subscription")
  }

  /** Only a report touches what is recorded of a connection, and then patches its own record into it. */
  lemma ConnectionAfterStep(cfg: Config, c: Capability, e: Event, path: seq<string>)
    requires Declared(cfg, c) && Enabled(cfg, c, e) && Sound(cfg, c) && FieldPath(path)
    ensures var was := MetaAt(c.store.authoritative.info, path, "subscription");
            var at := Child(RefAt(Ref(c.store.next, ["info"]), path), "subscription");
            MetaAt(Step(cfg, c, e).store.authoritative.info, path, "subscription")
            == if ReportOf(cfg, c, e, path) == [] then was
               else PatchInto(was, ConnectionInfo(c.store.next, e.name, e.status, e.error), at)
  {
    MetaAfterStep(cfg, c, e, path, "subscription");
  }

  lemma PatchedConnection(m: Value, n: nat, name: string, status: string, error: Value, at: Ref)
    requires m.Obj? && "status" in m.props && m.props["status"].Str?
    ensures var r := PatchInto(m, ConnectionInfo(n, name, status, error), at);
            && r.Obj? && "status" in r.props && r.props["status"] == Str(status)
            && ("error" in r.props <==> "error" in m.props || !error.Undef?)
            && Get(r.props, "error")
               == if error.Undef? then Get(m.props, "error")
                  else PatchInto(Get(m.props, "error"), ErrorOf(n, name, error), Child(at, "error"))
  {
    assert "status" != "error" by { assert |"status"| == 6 && |"error"| == 5; }
    var patch := ConnectionInfo(n, name, status, error);
    MergedSlots(m, patch, at);
    assert Slot(m.props, patch, at, "status") == PatchInto(m.props["status"], Str(status), Child(at, "status"));
  }

  function ReportFor(name: string, status: string, error: Value): Report {
    Report(status, if error.Undef? then [] else [Failure(name, error)])
  }

  lemma ErrorsOfSnoc(log: seq<Report>, next: Report)
    ensures ErrorsOf(log + [next]) == ErrorsOf(log) + next.failure
  {
    assert (log + [next])[..|log|] == log;
  }

  lemma FirstErrorIsRecorded(n: nat, name: string, error: Value)
    ensures Records(ErrorOf(n, name, error), [Failure(name, error)])
  {
    NextErrorIsRecorded(Undef, [], Failure(name, error), n, NoRef);
    assert [] + [Failure(name, error)] == [Failure(name, error)];
  }

  lemma FirstReportIsRecorded(n: nat, name: string, status: string, error: Value)
    ensures Connects(ConnectionInfo(n, name, status, error), [ReportFor(name, status, error)])
  {
    assert "status" != "error" by { assert |"status"| == 6 && |"error"| == 5; }
    var next := ReportFor(name, status, error);
    ErrorsOfSnoc([], next);
    assert [] + [next] == [next] && [] + next.failure == next.failure;
    if !error.Undef? { FirstErrorIsRecorded(n, name, error); }
  }

  lemma NextReportIsRecorded(
      m: Value, log: seq<Report>, n: nat, name: string, status: string, error: Value, at: Ref)
    requires Connects(m, log)
    ensures Connects(PatchInto(m, ConnectionInfo(n, name, status, error), at), log + [ReportFor(name, status, error)])
  {
    var next, errors := ReportFor(name, status, error), ErrorsOf(log);
    if log == [] {
      FirstReportIsRecorded(n, name, status, error);
      assert log + [next] == [next];
    } else {
      PatchedConnection(m, n, name, status, error, at);
      ErrorsOfSnoc(log, next);
      if error.Undef? {
        assert errors + [] == errors;
      } else {
        NextErrorIsRecorded(Get(m.props, "error"), errors, Failure(name, error), n, Child(at, "error"));
      }
    }
  }

  /**
   * What is recorded of a connection after any run: the status it reported last, and an error exactly when some
   * report so far carried one, whatever it has reported since -- accumulated as errors are everywhere.
   */
  lemma {:induction false} ConnectionAfterRun(cfg: Config, events: seq<Event>, path: seq<string>)
    requires WellDeclared(cfg) && FieldPath(path)
    ensures Connects(ConnectionAt(cfg, events, path), ReportLog(cfg, events, path))
  {
    if events != [] {
      var n := |events| - 1;
      var c, e, log := Run(cfg, Start(cfg), events[..n]), events[n], ReportLog(cfg, events[..n], path);
      ConnectionAfterRun(cfg, events[..n], path);
      FieldsAlwaysConform(cfg, events[..n]);
      var report := ReportOf(cfg, c, e, path);
      assert ReportLog(cfg, events, path) == log + report && log + [] == log;
      if Enabled(cfg, c, e) {
        ConnectionAfterStep(cfg, c, e, path);
        if report != [] {
          var at := Child(RefAt(Ref(c.store.next, ["info"]), path), "subscription");
          NextReportIsRecorded(ConnectionAt(cfg, events[..n], path), log, c.store.next, e.name, e.status, e.error, at);
          assert report == [report[0]];
        }
      }
    } else {
      assert ConnectionAt(cfg, [], path).Undef?;
    }
  }

  /**
   * The type documents an error for a connection whose status is "error". After a run there is one for no other
   * status exactly when the status reported last is "error" or no report so far carried an error.
   */
  lemma ConnectionErrorIsCurrentIff(cfg: Config, events: seq<Event>, path: seq<string>)
    requires WellDeclared(cfg) && FieldPath(path) && ReportLog(cfg, events, path) != []
    ensures var log, m := ReportLog(cfg, events, path), ConnectionAt(cfg, events, path);
            && m.Obj? && "status" in m.props
            && (("error" in m.props ==> m.props["status"] == FAILURE)
                <==> log[|log| - 1].status == "error" || ErrorsOf(log) == [])
  {
    ConnectionAfterRun(cfg, events, path);
  }

  function Reconnected(name: string, error: Value): seq<Event> {
    [SubscriptionStatus(name, "error", error), SubscriptionStatus(name, "connected", Undef)]
  }

  /** A connection that failed and is connected again is recorded as "connected", with the error. */
  lemma ConnectedWithError(cfg: Config, name: string, error: Value, path: seq<string>)
    requires WellDeclared(cfg) && FieldPath(path) && name in cfg.subscriptions && Covers(cfg.subscriptions[name], path)
    requires !error.Undef?
    ensures var m := ConnectionAt(cfg, Reconnected(name, error), path);
            "error" in PropsOf(m) && Get(PropsOf(m), "status") == Str("connected")
  {
    var two := Reconnected(name, error);
    assert two[..1] == [two[0]] && two[..1][..0] == [];
    assert ReportLog(cfg, two[..1], path) == [Report("error", [Failure(name, error)])];
    assert ReportLog(cfg, two, path) == [Report("error", [Failure(name, error)]), Report("connected", [])];
    ConnectionAfterRun(cfg, two, path);
    var failed, again := Report("error", [Failure(name, error)]), Report("connected", []);
    ErrorsOfSnoc([], failed);
    ErrorsOfSnoc([failed], again);
    assert [] + [failed] == [failed] && [failed] + [again] == [failed, again];
  }

  /* ---- visible state is only as sound as the optimistic patches ---- */

  /** If every live optimistic patch has the declared shape, so have the visible fields. */
  lemma {:induction false} VisibleConforms(s: Schema, state: State, pending: seq<Transition>, stamp: nat)
    requires Conforms(s, state.fields, true)
    requires forall i | 0 <= i < |pending| ::
      pending[i].fieldsPatch.Undef? || Conforms(s, pending[i].fieldsPatch, false)
    ensures Conforms(s, Project(state, pending, stamp).fields, true)
    decreases |pending|
  {
    if pending != [] {
      PatchKeepsConforming(s, state.fields, pending[0].fieldsPatch, Ref(stamp, ["fields"]), true);
      var first := CommitState(state, pending[0].fieldsPatch, pending[0].infoPatch, stamp);
      VisibleConforms(s, first, pending[1..], stamp + 1);
    }
  }

  /**
   * One more transition on top of conforming visible fields leaves them conforming exactly when its patch suits
   * what is visible; nothing in the source tests that.
   */
  lemma VisibleConformsIffSuits(s: Schema, state: State, pending: seq<Transition>, last: Transition, stamp: nat)
    requires Conforms(s, Project(state, pending, stamp).fields, true)
    ensures Conforms(s, Project(state, pending + [last], stamp).fields, true)
       <==> Suits(s, Project(state, pending, stamp).fields, last.fieldsPatch, true)
  {
    var shown := Project(state, pending, stamp);
    ProjectSnoc(state, pending, last, stamp);
    PatchConformsIffSuits(s, shown.fields, last.fieldsPatch, Ref(stamp + |pending|, ["fields"]), true);
  }

  /**
   * An optimistic patch is not checked: onto an authoritative number, a first transition that says it is a text
   * shows a text, and the visible fields no longer have the declared shape.
   */
  lemma OptimisticPatchIsNotChecked(st: Store, id: nat, infoPatch: Value)
    requires st.pending == [] && Conforms(Node(map["n" := Leaf(Number("0"))]), st.authoritative.fields, true)
    ensures var patch := Obj(NoRef, map["n" := Str("x")]);
            !Conforms(Node(map["n" := Leaf(Number("0"))]), Add(st, id, patch, infoPatch).visible.fields, true)
  {
    var patch := Obj(NoRef, map["n" := Str("x")]);
    var prev, at := st.authoritative.fields, Ref(st.next, ["fields"]);
    VisibleAfterFirstAdd(st, id, patch, infoPatch);
    MergedSlots(prev, patch, at);
    var shown := PatchInto(prev, patch, at);
    assert shown.props["n"] == PatchInto(prev.props["n"], Str("x"), Child(at, "n")) == Str("x");
  }

  /* ---- getters: linearization ---- */

  /** The field-level settle commit of the getter that the event makes, by start token. */
  ghost function SettleOf(cfg: Config, c: Capability, e: Event, getter: string): seq<nat>
    requires Declared(cfg, c)
  {
    if Enabled(cfg, c, e) && e.GetterSettle? && c.calls[e.id].name == getter && WriteOf(cfg, c, e).Some?
    then [e.id] else []
  }

  /** All of them, in the order they happened. */
  ghost function SettleLog(cfg: Config, events: seq<Event>, getter: string): seq<nat>
    requires WellDeclared(cfg)
  {
    if events == [] then []
    else
      SettleLog(cfg, events[..|events| - 1], getter)
      + SettleOf(cfg, Run(cfg, Start(cfg), events[..|events| - 1]), events[|events| - 1], getter)
  }

  ghost function LastOf(cfg: Config, c: Capability, e: Event, getter: string, last: Option<nat>): Option<nat> {
    if Enabled(cfg, c, e) && e.GetterStart? && e.name == getter then Some(e.id) else last
  }

  /** The start token of the getter's last start. */
  ghost function LastStart(cfg: Config, events: seq<Event>, getter: string): Option<nat>
    requires WellDeclared(cfg)
  {
    if events == [] then None
    else
      LastOf(cfg, Run(cfg, Start(cfg), events[..|events| - 1]), events[|events| - 1], getter,
             LastStart(cfg, events[..|events| - 1], getter))
  }

  /** The log is strictly increasing, and ends with the last start exactly when that call has settled. */
  ghost predicate Linear(c: Capability, log: seq<nat>, last: Option<nat>, getter: string) {
    && (forall i, j :: 0 <= i < j < |log| ==> log[i] < log[j])
    && (last.None? ==> log == [] && getter !in c.latest)
    && (last.Some? ==>
        && getter in c.latest && c.latest[getter] == last.value
        && if last.value in c.calls
           then c.calls[last.value] == GetterCall(getter) && forall i | 0 <= i < |log| :: log[i] < last.value
           else log != [] && log[|log| - 1] == last.value)
  }

  lemma LinearAfterStart(c: Capability, next: Capability, log: seq<nat>, last: Option<nat>, getter: string, id: nat)
    requires Linear(c, log, last, getter) && next.latest == c.latest[getter := id]
    requires next.calls == c.calls[id := GetterCall(getter)] && (last.Some? ==> last.value < id)
    ensures Linear(next, log, Some(id), getter)
  {
    forall i | 0 <= i < |log| ensures log[i] < id {
      if i < |log| - 1 { assert log[i] < log[|log| - 1]; }
    }
  }

  lemma LinearAfterOther(c: Capability, next: Capability, log: seq<nat>, last: Option<nat>, getter: string)
    requires Linear(c, log, last, getter)
    requires getter in next.latest <==> getter in c.latest
    requires getter in c.latest ==> next.latest[getter] == c.latest[getter]
    requires last.Some? ==> (last.value in next.calls <==> last.value in c.calls)
    requires last.Some? && last.value in c.calls ==> next.calls[last.value] == c.calls[last.value]
    ensures Linear(next, log, last, getter)
  {
  }

  lemma StepKeepsLinear(cfg: Config, c: Capability, e: Event, getter: string, log: seq<nat>, last: Option<nat>)
    requires Declared(cfg, c) && Enabled(cfg, c, e) && Linear(c, log, last, getter)
    ensures Linear(Step(cfg, c, e), log + SettleOf(cfg, c, e, getter), LastOf(cfg, c, e, getter, last), getter)
  {
    var next, settled := Step(cfg, c, e), SettleOf(cfg, c, e, getter);
    if e.GetterStart? && e.name == getter {
      assert log + settled == log;
      LinearAfterStart(c, next, log, last, getter, e.id);
    } else if settled != [] {
    } else {
      assert log + settled == log;
      LinearAfterOther(c, next, log, last, getter);
    }
  }

  /**
   * Under any settle order the field-level commits of one getter happen in strictly increasing start order, and
   * once the last-started call has settled it is the last one committed: a stale response never overwrites a
   * newer one, and the newest is never lost.
   */
  lemma {:induction false} GettersLinearize(cfg: Config, events: seq<Event>, getter: string)
    requires WellDeclared(cfg)
    ensures Linear(Run(cfg, Start(cfg), events), SettleLog(cfg, events, getter), LastStart(cfg, events, getter), getter)
  {
    if events != [] {
      var n := |events| - 1;
      var c := Run(cfg, Start(cfg), events[..n]);
      GettersLinearize(cfg, events[..n], getter);
      if Enabled(cfg, c, events[n]) {
        var log, last := SettleLog(cfg, events[..n], getter), LastStart(cfg, events[..n], getter);
        StepKeepsLinear(cfg, c, events[n], getter, log, last);
      } else {
        assert SettleLog(cfg, events, getter) == SettleLog(cfg, events[..n], getter);
      }
    }
  }
}
