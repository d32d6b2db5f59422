/** The object `createData` returns, as far as its calls go: a store, the getters' start tokens, the calls in flight. */
module CapabilityObject {
  import opened Options
  import opened Values
  import opened Patch
  import opened Schemas
  import opened SchemaGraph
  import opened Ownership
  import opened Info
  import opened Stores
  import opened Capabilities

  /** What an optimistic callback did: it is not declared, or it returned (maybe undefined), or it threw. */
  datatype Callback = Absent | Returned(patch: Value) | Threw

  class DataCapability {
    const cfg: Config
    const store: DataStore
    var latestStart: map<string, nat>
    var calls: map<nat, Call>
    var nextCall: nat

    ghost function View(): Capability
      reads this, store
    {
      Capability(store.View(), latestStart, calls, nextCall)
    }

    ghost predicate Valid()
      reads this, store
    {
      && store.Valid()
      && Declared(cfg, View())
      && Sound(cfg, View())
    }

    constructor (cfg: Config)
      requires WellDeclared(cfg)
      ensures Valid() && View() == Start(cfg) && this.cfg == cfg && fresh(store)
    {
      this.cfg := cfg;
      store := new DataStore(Initial(cfg.schema), FIRST_STAMP);
      latestStart, calls, nextCall := map[], map[], 0;
      new;
      FieldsAlwaysConform(cfg, []);
    }

    /** The set-up every call shares: status "loading" at the paths the operation declares. */
    method BeginOperationCall(own: Own)
      requires store.Valid()
      modifies store
      ensures store.Valid() && store.View() == Begin(old(store.View()), own) && store.symbols == old(store.symbols)
    {
      var info := BuildInfoPatch(own, LoadingMeta(store.next), Ref(store.next, ["owned"]));
      store.CommitAuthoritative(Undef, info);
    }

    method GetterStart(name: string) returns (id: nat)
      requires Valid() && name in cfg.getters
      modifies this, store
      ensures Valid() && id == old(nextCall)
      ensures View() == Step(cfg, old(View()), Event.GetterStart(id, name))
    {
      ghost var before := View();
      id := nextCall;
      BeginOperationCall(cfg.getters[name]);
      latestStart, calls, nextCall := latestStart[name := id], calls[id := GetterCall(name)], id + 1;
      StepKeepsDeclared(cfg, before, Event.GetterStart(id, name));
      StepKeepsSound(cfg, before, Event.GetterStart(id, name));
    }

    /** The accepted part of an outcome under `own`; the warnings are the recorded field errors. */
    method Accept(own: Own, outcome: Outcome) returns (patch: Value)
      requires cfg.schema.Node?
      ensures patch == if outcome.Failed? then Undef
                       else AcceptedPatch(cfg.schema, own, outcome.output, PatchRef(store.next))
    {
      if outcome.Produced? {
        var errors := new FieldErrors();
        patch := ResolveOperationPatch(cfg.schema, Some(own), outcome.output, PatchRef(store.next), errors);
      } else {
        patch := Undef;
      }
    }

    /** A stale call commits nothing, but its caller still gets its own result. */
    method GetterSettle(id: nat, outcome: Outcome) returns (result: Outcome)
      requires Valid() && id in calls && calls[id].GetterCall?
      modifies this, store
      ensures Valid() && View() == Step(cfg, old(View()), Event.GetterSettle(id, outcome))
      ensures old(latestStart[calls[id].name]) != id ==> store.View() == old(store.View())
      ensures result == if outcome.Failed? then outcome
                        else Produced(AcceptedPatch(cfg.schema, cfg.getters[old(calls[id].name)], outcome.output,
                                                    PatchRef(old(store.next))))
      ensures old(latestStart[calls[id].name]) == id ==>
                Settles(cfg, old(store.View()), store.View(), cfg.getters[old(calls[id].name)], outcome)
    {
      ghost var before, e := View(), Event.GetterSettle(id, outcome);
      var name := calls[id].name;
      var own := cfg.getters[name];
      var accepted := Accept(own, outcome);
      if latestStart[name] == id {
        var info := BuildInfoPatch(own, GetterMeta(store.next, name, outcome), Ref(store.next, ["owned"]));
        store.CommitAuthoritative(accepted, info);
      }
      calls := calls - {id};
      result := if outcome.Failed? then outcome else Produced(accepted);
      StepKeepsDeclared(cfg, before, e);
      StepKeepsSound(cfg, before, e);
      SettlementsLand(cfg, before, e);
    }

    /** The optimistic patch goes on top of everything pending, with its own metadata. */
    method AddOptimistic(own: Own, patch: Value) returns (symbol: nat)
      requires store.Valid()
      modifies store
      ensures store.Valid() && symbol == old(store.symbols)
      ensures var begun := old(store.View());
              store.View() == Add(begun, symbol, patch, InfoOf(begun.next, own, OptimisticMeta(begun.next)))
      ensures forall t | t in old(store.pendingTransitions) :: t.id != symbol
    {
      var info := BuildInfoPatch(own, OptimisticMeta(store.next), Ref(store.next, ["owned"]));
      symbol := store.AddPendingTransition(patch, info);
    }

    /** Not `started` when the optimistic callback threw: the call rejects at once, its status left at "loading". */
    method MutatorStart(name: string, callback: Callback) returns (id: nat, started: bool, ghost optimism: Optimism)
      requires Valid() && name in cfg.mutators
      modifies this, store
      ensures Valid() && id == old(nextCall) && started == !callback.Threw?
      ensures optimism == (if callback.Threw? then Throws
                           else if callback.Absent? || callback.patch.Undef? then NoUpdate
                           else Update(old(store.symbols), callback.patch))
      ensures View() == Step(cfg, old(View()), Event.MutatorStart(id, name, optimism))
    {
      ghost var before := View();
      var own := cfg.mutators[name];
      id, started, optimism := nextCall, !callback.Threw?, if callback.Threw? then Throws else NoUpdate;
      BeginOperationCall(own);
      nextCall := id + 1;
      if !callback.Threw? {
        var transition := None;
        if callback.Returned? && !callback.patch.Undef? {
          var symbol := AddOptimistic(own, callback.patch);
          transition, optimism := Some(symbol), Update(symbol, callback.patch);
        }
        calls := calls[id := MutatorCall(name, transition)];
      }
      StepKeepsDeclared(cfg, before, Event.MutatorStart(id, name, optimism));
      StepKeepsSound(cfg, before, Event.MutatorStart(id, name, optimism));
    }

    /** Whatever the outcome, the transition is removed last: no rollback code exists. */
    method MutatorSettle(id: nat, outcome: Outcome) returns (result: Outcome)
      requires Valid() && id in calls && calls[id].MutatorCall?
      modifies this, store
      ensures Valid() && View() == Step(cfg, old(View()), Event.MutatorSettle(id, outcome))
      ensures result == if outcome.Failed? then outcome
                        else Produced(AcceptedPatch(cfg.schema, cfg.mutators[old(calls[id].name)], outcome.output,
                                                    PatchRef(old(store.next))))
      ensures Settles(cfg, old(store.View()), store.View(), cfg.mutators[old(calls[id].name)], outcome)
    {
      ghost var before, e := View(), Event.MutatorSettle(id, outcome);
      var MutatorCall(name, transition) := calls[id];
      var own := cfg.mutators[name];
      var accepted := Accept(own, outcome);
      var info := BuildInfoPatch(own, MutatorMeta(store.next, name, outcome), Ref(store.next, ["owned"]));
      store.CommitAuthoritative(accepted, info);
      if transition.Some? {
        store.RemovePendingTransition(transition.value);
      }
      calls := calls - {id};
      result := if outcome.Failed? then outcome else Produced(accepted);
      StepKeepsDeclared(cfg, before, e);
      StepKeepsSound(cfg, before, e);
      SettlementsLand(cfg, before, e);
    }

    method OnSubscriptionEvent(name: string, output: Value)
      requires Valid() && name in cfg.subscriptions
      modifies this, store
      ensures Valid() && View() == Step(cfg, old(View()), SubscriptionEvent(name, output))
      ensures Settles(cfg, old(store.View()), store.View(), cfg.subscriptions[name], Produced(output))
    {
      ghost var before := View();
      var own := cfg.subscriptions[name];
      var accepted := Accept(own, Produced(output));
      var info := BuildInfoPatch(own, GetterMeta(store.next, name, Produced(output)), Ref(store.next, ["owned"]));
      store.CommitAuthoritative(accepted, info);
      StepKeepsDeclared(cfg, before, SubscriptionEvent(name, output));
      StepKeepsSound(cfg, before, SubscriptionEvent(name, output));
      SettlementsLand(cfg, before, SubscriptionEvent(name, output));
    }

    /** A status transition touches no field. */
    method OnSubscriptionStatus(name: string, status: string, error: Value)
      requires Valid() && name in cfg.subscriptions
      modifies this, store
      ensures Valid() && View() == Step(cfg, old(View()), SubscriptionStatus(name, status, error))
      ensures store.authoritativeState.fields == old(store.authoritativeState.fields)
    {
      ghost var before := View();
      var meta := ConnectionMeta(store.next, name, status, error);
      var info := BuildInfoPatch(cfg.subscriptions[name], meta, Ref(store.next, ["owned"]));
      store.CommitAuthoritative(Undef, info);
      StepKeepsDeclared(cfg, before, SubscriptionStatus(name, status, error));
      StepKeepsSound(cfg, before, SubscriptionStatus(name, status, error));
    }
  }
}
