/**
 * When a capability notifies its listeners. What an event does to the store is a short run of store operations, and
 * the patches they carry hold nothing that was not handed in before or made for them; so what is known of runs of a
 * store holds of every capability.
 */
module Notifying {
  import opened Options
  import opened Values
  import opened Patch
  import opened Schemas
  import opened SchemaGraph
  import opened Ownership
  import opened Info
  import opened Stores
  import opened Capabilities

  /* ---- what is made for a patch is no newer than its stamp ---- */

  /** The built-in objects written into the declaration existed before its capability. */
  ghost predicate DeclaredBefore(s: Schema) {
    match s
    case Leaf(_) => true
    case Fixed(_, ref) => RefBefore(ref, FIRST_STAMP)
    case List(items) => forall i | 0 <= i < |items| :: DeclaredBefore(items[i])
    case Node(props) => forall k | k in props :: DeclaredBefore(props[k])
    case Marker(_, inner) => DeclaredBefore(inner)
  }

  lemma {:induction false} DefaultBefore(s: Schema, at: Ref, n: nat)
    requires DeclaredBefore(s) && RefBefore(at, n) && FIRST_STAMP <= n
    ensures Below(Default(s, at), n)
    decreases s
  {
    match s
    case List(items) =>
      forall i | 0 <= i < |items| ensures Below(Default(items[i], Child(at, Decimal(i))), n) {
        DefaultBefore(items[i], Child(at, Decimal(i)), n);
      }
    case Node(props) =>
      forall k | k in props ensures Below(Default(props[k], Child(at, k)), n) {
        DefaultBefore(props[k], Child(at, k), n);
      }
    case _ =>
  }

  lemma {:induction false} CheckedBefore(s: Schema, v: Value, at: Ref, n: nat)
    requires DeclaredBefore(s) && Below(v, n) && RefBefore(at, n) && FIRST_STAMP <= n
    ensures Below(CheckedOrDefault(s, v, at), n)
    decreases s
  {
    DefaultBefore(s, at, n);
    match s
    case Node(props) =>
      if IsRecord(v) {
        var r := CheckValue(s, v, at).value;
        CheckedSlots(s, v, at);
        forall k | k in r.props ensures Below(r.props[k], n) {
          CheckedBefore(props[k], PropsOf(v)[k], Child(at, k), n);
        }
      }
    case Marker(_, inner) => CheckedBefore(inner, v, at, n);
    case _ =>
  }

  lemma {:induction false} WalkBefore(s: Schema, own: Own, value: Value, at: Ref, n: nat)
    requires s.Node? && DeclaredBefore(s) && Below(value, n) && RefBefore(at, n) && FIRST_STAMP <= n
    ensures Below(Obj(at, Walk(s, own, value, at)), n)
    decreases s
  {
    var accepted := Walk(s, own, value, at);
    forall k | k in accepted ensures Below(accepted[k], n) {
      var child, v := s.props[k], PropsOf(value)[k];
      WalkSlots(s, own, value, at, k);
      CheckedBefore(child, v, Child(at, k), n);
      DefaultBefore(child, Child(at, k), n);
      if child.Node? && IsRecord(v) { WalkBefore(child, OwnOf(own, k).value, v, Child(at, k), n); }
    }
  }

  lemma {:induction false} InfoBefore(own: Own, meta: Value, at: Ref, n: nat)
    requires Below(meta, n) && RefBefore(at, n)
    ensures Below(InfoPatch(own, meta, at), n)
    decreases own
  {
    if own.Parts? {
      forall k | k in own.fields ensures Below(InfoPatch(own.fields[k], meta, Child(at, k)), n) {
        InfoBefore(own.fields[k], meta, Child(at, k), n);
      }
    }
  }

  /* ---- events as store operations ---- */

  /** Whatever the environment hands in with an event exists already. */
  ghost predicate Brought(c: Capability, e: Event) {
    match e
    case GetterSettle(_, outcome) => OutcomeBefore(outcome, c.store.next)
    case MutatorSettle(_, outcome) => OutcomeBefore(outcome, c.store.next)
    case SubscriptionEvent(_, output) => Below(output, c.store.next)
    case SubscriptionStatus(_, _, error) => Below(error, c.store.next)
    case _ => true
  }

  ghost predicate OutcomeBefore(outcome: Outcome, n: nat) {
    match outcome case Produced(output) => Below(output, n) case Failed(error) => Below(error, n)
  }

  ghost function CommitOf(st: Store, w: Write): Op {
    CommitOp(w.fields, InfoOf(st.next, w.own, w.meta))
  }

  /** The operations on the store that the event amounts to, in order. */
  ghost function OpsOf(cfg: Config, c: Capability, e: Event): (ops: seq<Op>)
    requires Declared(cfg, c) && Enabled(cfg, c, e)
    ensures |ops| <= 2 && (|ops| == 2 ==> !ops[1].CommitOp?)
    ensures WriteOf(cfg, c, e).None? ==> ops == []
    ensures WriteOf(cfg, c, e).Some? ==> ops != [] && ops[0] == CommitOf(c.store, WriteOf(cfg, c, e).value)
  {
    var w := WriteOf(cfg, c, e);
    var commit := if w.None? then [] else [CommitOf(c.store, w.value)];
    if e.MutatorStart? && e.optimism.Update? then
      var own, m := cfg.mutators[e.name], Begin(c.store, cfg.mutators[e.name]).next;
      commit + [AddOp(e.optimism.symbol, e.optimism.patch, InfoOf(m, own, OptimisticMeta(m)))]
    else if e.MutatorSettle? && c.calls[e.id].transition.Some? then
      commit + [RemoveOp(c.calls[e.id].transition.value)]
    else commit
  }

  lemma OneOp(st: Store, op: Op)
    ensures StoreRun(st, [op]) == StoreStep(st, op)
  {
    assert [op][..0] == [];
  }

  lemma TwoOps(st: Store, first: Op, second: Op)
    ensures StoreRun(st, [first] + [second]) == StoreStep(StoreStep(st, first), second)
  {
    OneOp(st, first);
    assert ([first] + [second])[..1] == [first];
  }

  lemma StepIsStoreRun(cfg: Config, c: Capability, e: Event)
    requires Declared(cfg, c) && Enabled(cfg, c, e)
    ensures Step(cfg, c, e).store == StoreRun(c.store, OpsOf(cfg, c, e))
  {
    var ops := OpsOf(cfg, c, e);
    if |ops| == 1 {
      OneOp(c.store, ops[0]);
      assert ops == [ops[0]];
    } else if |ops| == 2 {
      TwoOps(c.store, ops[0], ops[1]);
      assert ops == [ops[0]] + [ops[1]];
    }
  }

  lemma ErrorBefore(n: nat, name: string, error: Value)
    requires Below(error, n)
    ensures Below(ErrorOf(n, name, error), n + 1)
  {
    BelowLater(error, n, n + 1);
  }

  lemma MetaBefore(cfg: Config, c: Capability, e: Event)
    requires Declared(cfg, c) && Enabled(cfg, c, e) && Brought(c, e) && WriteOf(cfg, c, e).Some?
    ensures Below(WriteOf(cfg, c, e).value.meta, c.store.next + 1)
  {
    var n := c.store.next;
    match e
    case GetterSettle(id, Failed(error)) => ErrorBefore(n, c.calls[id].name, error);
    case MutatorSettle(id, Failed(error)) => ErrorBefore(n, c.calls[id].name, error);
    case SubscriptionStatus(name, status, error) => ErrorBefore(n, name, error);
    case _ =>
  }

  lemma WrittenBefore(cfg: Config, c: Capability, e: Event)
    requires Declared(cfg, c) && Enabled(cfg, c, e) && Brought(c, e) && DeclaredBefore(cfg.schema)
    requires WriteOf(cfg, c, e).Some? && FIRST_STAMP <= c.store.next
    ensures Below(WriteOf(cfg, c, e).value.fields, c.store.next + 1)
  {
    var offer, n := OfferOf(cfg, c, e), c.store.next;
    if offer.Some? {
      var Offer(own, output) := offer.value;
      BelowLater(output, n, n + 1);
      WalkBefore(cfg.schema, own, output, PatchRef(n), n + 1);
    }
  }

  /** Each commit an event makes carries what was handed in before, and what was made for it. */
  lemma OpsAreHandedOver(cfg: Config, c: Capability, e: Event)
    requires Declared(cfg, c) && Enabled(cfg, c, e) && Brought(c, e) && DeclaredBefore(cfg.schema)
    requires FIRST_STAMP <= c.store.next
    ensures AllHandedOver(c.store, OpsOf(cfg, c, e))
  {
    if WriteOf(cfg, c, e).Some? {
      MetaBefore(cfg, c, e);
      WrittenBefore(cfg, c, e);
      var w, n := WriteOf(cfg, c, e).value, c.store.next;
      InfoBefore(w.own, w.meta, Ref(n, ["owned"]), n + 1);
    }
    FirstHandedOver(c.store, OpsOf(cfg, c, e));
  }

  lemma FirstHandedOver(st: Store, ops: seq<Op>)
    requires |ops| <= 2 && (ops != [] ==> HandedOver(st, ops[0])) && (|ops| == 2 ==> !ops[1].CommitOp?)
    ensures AllHandedOver(st, ops)
  {
    if |ops| == 1 {
      assert ops[..0] == [] && StoreRun(st, []) == st;
    } else if |ops| == 2 {
      FirstHandedOver(st, ops[..1]);
    }
  }

  /* ---- runs ---- */

  ghost predicate AllBrought(cfg: Config, events: seq<Event>)
    requires WellDeclared(cfg)
  {
    events == [] ||
    (&& AllBrought(cfg, events[..|events| - 1])
     && Brought(Run(cfg, Start(cfg), events[..|events| - 1]), events[|events| - 1]))
  }

  /** How often the event notifies. */
  ghost function NotifiedBy(cfg: Config, c: Capability, e: Event): nat
    requires Declared(cfg, c)
  {
    if Enabled(cfg, c, e) then Notifications(c.store, OpsOf(cfg, c, e)) else 0
  }

  ghost function NotifiedOver(cfg: Config, events: seq<Event>): nat
    requires WellDeclared(cfg)
  {
    if events == [] then 0
    else
      var before := events[..|events| - 1];
      NotifiedOver(cfg, before) + NotifiedBy(cfg, Run(cfg, Start(cfg), before), events[|events| - 1])
  }

  lemma {:induction false} StampsGrow(st: Store, ops: seq<Op>)
    ensures st.next <= StoreRun(st, ops).next
  {
    if ops != [] { StampsGrow(st, ops[..|ops| - 1]); }
  }

  /**
   * In every run of a capability, whatever the operations return, no state is older than what is in it, and its
   * listeners have been notified exactly as often as the store operations behind its events say: once for a commit
   * that is not absorbed, and for an optimistic transition that comes or goes unless everything pending is unheeded.
   */
  lemma {:induction false} ListenersAreNotified(cfg: Config, events: seq<Event>)
    requires WellDeclared(cfg) && DeclaredBefore(cfg.schema) && AllBrought(cfg, events)
    ensures var st := Run(cfg, Start(cfg), events).store;
            && Projected(st) && Fresh(st) && FIRST_STAMP <= st.next
            && st.published == NotifiedOver(cfg, events)
  {
    if events == [] {
      DefaultBefore(cfg.schema, Ref(0, []), FIRST_STAMP);
      assert Older(Initial(cfg.schema), FIRST_STAMP);
    } else {
      var n := |events| - 1;
      var c, e := Run(cfg, Start(cfg), events[..n]), events[n];
      ListenersAreNotified(cfg, events[..n]);
      if Enabled(cfg, c, e) {
        StepIsStoreRun(cfg, c, e);
        OpsAreHandedOver(cfg, c, e);
        PublishedMeaning(c.store, OpsOf(cfg, c, e));
        StampsGrow(c.store, OpsOf(cfg, c, e));
      }
    }
  }
}
