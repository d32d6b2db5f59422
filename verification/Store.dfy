/**
 * The state container: authoritative state, pending optimistic transitions, and the visible snapshot projected
 * from both. `Store` is the abstract state and `Commit`, `Add`, `Remove` its steps; `DataStore` is the object
 * whose methods take those steps.
 */
module Stores {
  import opened Values
  import opened Patch

  /**
   * `next` is the next allocation stamp and `projectedAt` the first stamp of the last projection; `published`
   * counts how often listeners were notified.
   */
  datatype Store = Store(
    authoritative: State, pending: seq<Transition>, visible: State,
    next: nat, projectedAt: nat, published: nat)

  function Init(state: State, next: nat): Store {
    Store(state, [], state, next, next, 0)
  }

  function Recompute(st: Store): Store {
    var visible := Project(st.authoritative, st.pending, st.next);
    st.(visible := visible, projectedAt := st.next, next := st.next + |st.pending|,
        published := if visible != st.visible then st.published + 1 else st.published)
  }

  function Commit(st: Store, fieldsPatch: Value, infoPatch: Value): Store {
    var state := CommitState(st.authoritative, fieldsPatch, infoPatch, st.next);
    if state != st.authoritative then Recompute(st.(authoritative := state, next := st.next + 1)) else st
  }

  function Add(st: Store, id: nat, fieldsPatch: Value, infoPatch: Value): Store {
    Recompute(st.(pending := st.pending + [Transition(id, fieldsPatch, infoPatch)]))
  }

  function Without(pending: seq<Transition>, id: nat): seq<Transition> {
    if pending == [] then []
    else (if pending[0].id == id then [] else [pending[0]]) + Without(pending[1..], id)
  }

  function Remove(st: Store, id: nat): Store {
    var pending := Without(st.pending, id);
    if |pending| != |st.pending| then Recompute(st.(pending := pending)) else st
  }

  /** The visible snapshot is the projection of the current authoritative state through the current transitions. */
  ghost predicate Projected(st: Store) {
    st.visible == Project(st.authoritative, st.pending, st.projectedAt)
  }

  lemma {:induction false} WithoutLaws(pending: seq<Transition>, id: nat)
    ensures |Without(pending, id)| <= |pending|
    ensures |Without(pending, id)| == |pending| ==> Without(pending, id) == pending
    ensures forall t :: t in Without(pending, id) <==> t in pending && t.id != id
  {
    if pending != [] {
      WithoutLaws(pending[1..], id);
      assert pending == [pending[0]] + pending[1..];
    }
  }

  lemma {:induction false} WithoutSnoc(pending: seq<Transition>, last: Transition, id: nat)
    ensures Without(pending + [last], id) == Without(pending, id) + if last.id == id then [] else [last]
  {
    if pending == [] {
      assert [last][1..] == [];
    } else {
      var head := if pending[0].id == id then [] else [pending[0]];
      var tail := if last.id == id then [] else [last];
      assert (pending + [last])[1..] == pending[1..] + [last];
      WithoutSnoc(pending[1..], last, id);
      assert Without(pending + [last], id) == head + (Without(pending[1..], id) + tail);
      assert Without(pending, id) == head + Without(pending[1..], id);
    }
  }

  lemma {:induction false} WithoutCommutes(pending: seq<Transition>, a: nat, b: nat)
    ensures Without(Without(pending, a), b) == Without(Without(pending, b), a)
  {
    if pending != [] {
      var t, rest := pending[0], pending[1..];
      WithoutCommutes(rest, a, b);
      assert ([t] + Without(rest, a))[1..] == Without(rest, a);
      assert ([t] + Without(rest, b))[1..] == Without(rest, b);
      assert [] + Without(rest, a) == Without(rest, a) && [] + Without(rest, b) == Without(rest, b);
    }
  }

  /** After a commit the authoritative trees are the patched ones, even when no new snapshot was made. */
  lemma AuthoritativeAfterCommit(st: Store, fieldsPatch: Value, infoPatch: Value)
    ensures var next := Commit(st, fieldsPatch, infoPatch);
            && next.authoritative.fields == PatchInto(st.authoritative.fields, fieldsPatch, Ref(st.next, ["fields"]))
            && next.authoritative.info == PatchInto(st.authoritative.info, infoPatch, Ref(st.next, ["info"]))
            && next.pending == st.pending
            && (Projected(st) ==> Projected(next))
  {
  }

  /** A first transition shows its patch merged into the authoritative fields, whatever the patch. */
  lemma VisibleAfterFirstAdd(st: Store, id: nat, fieldsPatch: Value, infoPatch: Value)
    requires st.pending == []
    ensures Add(st, id, fieldsPatch, infoPatch).visible.fields
         == PatchInto(st.authoritative.fields, fieldsPatch, Ref(st.next, ["fields"]))
  {
    var t := Transition(id, fieldsPatch, infoPatch);
    assert st.pending + [t] == [t] && [t][1..] == [];
    assert Project(st.authoritative, [t], st.next)
        == Project(CommitState(st.authoritative, fieldsPatch, infoPatch, st.next), [], st.next + 1);
  }

  /* ---- runs ---- */

  datatype Op =
    | CommitOp(fieldsPatch: Value, infoPatch: Value)
    | AddOp(id: nat, fieldsPatch: Value, infoPatch: Value)
    | RemoveOp(id: nat)

  function StoreStep(st: Store, op: Op): Store {
    match op
    case CommitOp(f, i) => Commit(st, f, i)
    case AddOp(id, f, i) => Add(st, id, f, i)
    case RemoveOp(id) => Remove(st, id)
  }

  function StoreRun(st: Store, ops: seq<Op>): Store {
    if ops == [] then st else StoreStep(StoreRun(st, ops[..|ops| - 1]), ops[|ops| - 1])
  }

  lemma StepKeepsProjected(st: Store, op: Op)
    requires Projected(st)
    ensures Projected(StoreStep(st, op))
  {
    if op.RemoveOp? { WithoutLaws(st.pending, op.id); }
  }

  lemma {:induction false} RunKeepsProjected(st: Store, ops: seq<Op>)
    requires Projected(st)
    ensures Projected(StoreRun(st, ops))
  {
    if ops != [] {
      RunKeepsProjected(st, ops[..|ops| - 1]);
      StepKeepsProjected(StoreRun(st, ops[..|ops| - 1]), ops[|ops| - 1]);
    }
  }

  /** With nothing pending, visible is the very object that is authoritative. */
  lemma NothingPendingMeansSameObject(state: State, next: nat, ops: seq<Op>)
    requires StoreRun(Init(state, next), ops).pending == []
    ensures StoreRun(Init(state, next), ops).visible == StoreRun(Init(state, next), ops).authoritative
  {
    RunKeepsProjected(Init(state, next), ops);
  }

  /* ---- what a run amounts to ---- */

  type Contents = (Value, Value)

  function MergeBoth(c: Contents, fieldsPatch: Value, infoPatch: Value): Contents {
    (Merge(c.0, Strip(fieldsPatch)), Merge(c.1, Strip(infoPatch)))
  }

  /** The commits of a run, folded in order. */
  function Committed(c: Contents, ops: seq<Op>): Contents {
    if ops == [] then c
    else
      var op, before := ops[|ops| - 1], Committed(c, ops[..|ops| - 1]);
      if op.CommitOp? then MergeBoth(before, op.fieldsPatch, op.infoPatch) else before
  }

  /** The transitions a run adds and does not remove again, in insertion order. */
  function Live(ops: seq<Op>): seq<Transition> {
    if ops == [] then []
    else
      var op, before := ops[|ops| - 1], Live(ops[..|ops| - 1]);
      match op
      case CommitOp(_, _) => before
      case AddOp(id, f, i) => before + [Transition(id, f, i)]
      case RemoveOp(id) => Without(before, id)
  }

  function Fold(c: Contents, pending: seq<Transition>): Contents {
    if pending == [] then c
    else
      var t := pending[|pending| - 1];
      MergeBoth(Fold(c, pending[..|pending| - 1]), t.fieldsPatch, t.infoPatch)
  }

  lemma MergedCommit(before: State, t: Transition, stamp: nat)
    ensures StripState(CommitState(before, t.fieldsPatch, t.infoPatch, stamp))
         == MergeBoth(StripState(before), t.fieldsPatch, t.infoPatch)
  {
    CommitContents(before, t.fieldsPatch, t.infoPatch, stamp);
  }

  lemma ProjectedOnce(state: State, pending: seq<Transition>, t: Transition, stamp: nat)
    ensures StripState(Project(state, pending + [t], stamp))
         == MergeBoth(StripState(Project(state, pending, stamp)), t.fieldsPatch, t.infoPatch)
  {
    ProjectSnoc(state, pending, t, stamp);
    MergedCommit(Project(state, pending, stamp), t, stamp + |pending|);
  }

  lemma {:induction false} ProjectContents(state: State, pending: seq<Transition>, stamp: nat)
    ensures StripState(Project(state, pending, stamp)) == Fold(StripState(state), pending)
  {
    if pending != [] {
      var n := |pending| - 1;
      ProjectContents(state, pending[..n], stamp);
      ProjectedOnce(state, pending[..n], pending[n], stamp);
      assert pending == pending[..n] + [pending[n]];
    }
  }

  /**
   * After any run, pending is the live transitions, authoritative holds the commits folded in order, and visible
   * holds those with the live transitions on top in insertion order.
   */
  lemma {:induction false} RunMeaning(state: State, next: nat, ops: seq<Op>)
    ensures var st := StoreRun(Init(state, next), ops);
            && st.pending == Live(ops)
            && StripState(st.authoritative) == Committed(StripState(state), ops)
            && StripState(st.visible) == Fold(Committed(StripState(state), ops), Live(ops))
  {
    var st := StoreRun(Init(state, next), ops);
    if ops != [] {
      var before, op := StoreRun(Init(state, next), ops[..|ops| - 1]), ops[|ops| - 1];
      RunMeaning(state, next, ops[..|ops| - 1]);
      match op {
        case CommitOp(f, i) => CommitContents(before.authoritative, f, i, before.next);
        case AddOp(_, _, _) =>
        case RemoveOp(id) => WithoutLaws(before.pending, id);
      }
    }
    RunKeepsProjected(Init(state, next), ops);
    ProjectContents(st.authoritative, st.pending, st.projectedAt);
  }

  /** The run without the transition `id`. */
  function Erase(ops: seq<Op>, id: nat): seq<Op> {
    if ops == [] then []
    else
      var op, before := ops[|ops| - 1], Erase(ops[..|ops| - 1], id);
      if (op.AddOp? || op.RemoveOp?) && op.id == id then before else before + [op]
  }

  lemma {:induction false} ErasedRun(c: Contents, ops: seq<Op>, id: nat)
    ensures Committed(c, Erase(ops, id)) == Committed(c, ops)
    ensures Live(Erase(ops, id)) == Without(Live(ops), id)
  {
    if ops != [] {
      var n := |ops| - 1;
      var op, before := ops[n], Live(ops[..n]);
      ErasedRun(c, ops[..n], id);
      var erased := Erase(ops[..n], id);
      assert (erased + [op])[..|erased|] == erased;
      match op {
        case CommitOp(_, _) =>
        case AddOp(a, f, i) => WithoutSnoc(before, Transition(a, f, i), id);
        case RemoveOp(a) =>
          WithoutCommutes(before, a, id);
          WithoutLaws(Without(before, id), id);
          var twice := Without(Without(before, id), id);
          if a == id { SubsequenceSame(before, id); }
      }
    }
  }

  lemma {:induction false} SubsequenceSame(pending: seq<Transition>, id: nat)
    ensures Without(Without(pending, id), id) == Without(pending, id)
  {
    if pending != [] {
      var t, rest := pending[0], pending[1..];
      SubsequenceSame(rest, id);
      assert ([t] + Without(rest, id))[1..] == Without(rest, id);
      assert [] + Without(rest, id) == Without(rest, id);
    }
  }

  /**
   * Optimism leaves no trace: deleting from a run every mention of a transition that is no longer live at its end
   * changes neither the contents of the final authoritative and visible snapshots nor what is pending.
   */
  lemma OptimisticTraceErasure(state: State, next: nat, ops: seq<Op>, id: nat)
    requires forall t | t in Live(ops) :: t.id != id
    ensures var st, erased := StoreRun(Init(state, next), ops), StoreRun(Init(state, next), Erase(ops, id));
            && StripState(erased.authoritative) == StripState(st.authoritative)
            && StripState(erased.visible) == StripState(st.visible)
            && erased.pending == st.pending
  {
    RunMeaning(state, next, ops);
    RunMeaning(state, next, Erase(ops, id));
    ErasedRun(StripState(state), ops, id);
    NothingToRemove(Live(ops), id);
  }

  lemma {:induction false} NothingToRemove(pending: seq<Transition>, id: nat)
    requires forall t | t in pending :: t.id != id
    ensures Without(pending, id) == pending
  {
    if pending != [] { NothingToRemove(pending[1..], id); }
  }

  /* ---- when listeners are notified ---- */

  /** Each pending transition leaves the state as it is. */
  ghost predicate AllUnheeded(state: State, pending: seq<Transition>) {
    forall i | 0 <= i < |pending| :: Unheeded(state, pending[i].fieldsPatch, pending[i].infoPatch)
  }

  /** The state existed, with everything in it, before the stamp. */
  ghost predicate Older(state: State, stamp: nat) {
    && state.id < stamp
    && Below(state.fields, stamp)
    && Below(state.info, stamp)
  }

  ghost predicate Fresh(st: Store) {
    && Older(st.authoritative, st.projectedAt)
    && st.projectedAt <= st.next
    && st.visible.id < st.next
  }

  lemma OlderLater(state: State, n: nat, m: nat)
    requires Older(state, n) && n <= m
    ensures Older(state, m)
  {
    BelowLater(state.fields, n, m);
    BelowLater(state.info, n, m);
  }

  lemma {:induction false} ProjectedId(state: State, pending: seq<Transition>, stamp: nat)
    ensures var r := Project(state, pending, stamp); r == state || stamp <= r.id < stamp + |pending|
    decreases |pending|
  {
    if pending != [] {
      ProjectedId(CommitState(state, pending[0].fieldsPatch, pending[0].infoPatch, stamp), pending[1..], stamp + 1);
    }
  }

  /** A projection is the very state it starts from exactly when every transition leaves that state as it is. */
  lemma {:induction false} ProjectIsSameIffUnheeded(state: State, pending: seq<Transition>, stamp: nat)
    requires Older(state, stamp)
    ensures Project(state, pending, stamp) == state <==> AllUnheeded(state, pending)
    decreases |pending|
  {
    if pending != [] {
      var t, rest := pending[0], pending[1..];
      assert pending == [t] + rest;
      assert AllUnheeded(state, pending) <==> Unheeded(state, t.fieldsPatch, t.infoPatch) && AllUnheeded(state, rest);
      CommitIsNoOpIffAbsorbed(state, t.fieldsPatch, t.infoPatch, stamp);
      OlderLater(state, stamp, stamp + 1);
      ProjectIsSameIffUnheeded(state, rest, stamp + 1);
      ProjectedId(CommitState(state, t.fieldsPatch, t.infoPatch, stamp), rest, stamp + 1);
    }
  }

  /** A recomputation notifies unless visible was and stays the authoritative snapshot itself. */
  lemma RecomputeNotifies(st: Store)
    requires Older(st.authoritative, st.next) && st.visible.id < st.next
    ensures var quiet := st.visible == st.authoritative && AllUnheeded(st.authoritative, st.pending);
            Recompute(st).published == st.published + if quiet then 0 else 1
    ensures Fresh(Recompute(st))
  {
    ProjectIsSameIffUnheeded(st.authoritative, st.pending, st.next);
    ProjectedId(st.authoritative, st.pending, st.next);
  }

  /**
   * A commit notifies unless it is absorbed. A new transition notifies unless it and all the others are; and one
   * that is removed unless all of them were -- so with one that is heeded pending, even an empty one does.
   */
  ghost predicate Notifies(st: Store, op: Op) {
    match op
    case CommitOp(f, i) => !Unheeded(st.authoritative, f, i)
    case AddOp(id, f, i) => !AllUnheeded(st.authoritative, st.pending + [Transition(id, f, i)])
    case RemoveOp(id) => !AllUnheeded(st.authoritative, st.pending) && exists t | t in st.pending :: t.id == id
  }

  /** What a patch holds existed before the operation, or was made for it, under the stamp that is next. */
  ghost predicate HandedOver(st: Store, op: Op) {
    op.CommitOp? ==> Below(op.fieldsPatch, st.next + 1) && Below(op.infoPatch, st.next + 1)
  }

  /** What a commit makes is the old state, just when both patches are absorbed, or a new and older one. */
  lemma CommittedState(prev: State, fieldsPatch: Value, infoPatch: Value, first: nat, stamp: nat)
    requires Older(prev, first) && first <= stamp && Below(fieldsPatch, stamp + 1) && Below(infoPatch, stamp + 1)
    ensures var state := CommitState(prev, fieldsPatch, infoPatch, stamp);
            && (state == prev <==> Unheeded(prev, fieldsPatch, infoPatch))
            && (state != prev ==> state.id == stamp && Older(state, stamp + 1))
  {
    OlderLater(prev, first, stamp);
    CommitIsNoOpIffAbsorbed(prev, fieldsPatch, infoPatch, stamp);
    PatchedBelow(prev.fields, fieldsPatch, stamp, ["fields"]);
    PatchedBelow(prev.info, infoPatch, stamp, ["info"]);
    OlderLater(prev, stamp, stamp + 1);
  }

  lemma UnheededPrefix(state: State, pending: seq<Transition>, t: Transition)
    ensures AllUnheeded(state, pending + [t]) <==>
      AllUnheeded(state, pending) && Unheeded(state, t.fieldsPatch, t.infoPatch)
  {
    var all := pending + [t];
    assert forall k | 0 <= k < |pending| :: all[k] == pending[k];
    assert all[|pending|] == t;
  }

  /** Exactly when an operation on a reachable store notifies its listeners: once, or not at all. */
  lemma StepNotifiesIff(st: Store, op: Op)
    requires Projected(st) && Fresh(st) && HandedOver(st, op)
    ensures Fresh(StoreStep(st, op))
    ensures StoreStep(st, op).published == st.published + if Notifies(st, op) then 1 else 0
  {
    OlderLater(st.authoritative, st.projectedAt, st.next);
    ProjectIsSameIffUnheeded(st.authoritative, st.pending, st.projectedAt);
    match op
    case CommitOp(f, i) =>
      CommittedState(st.authoritative, f, i, st.projectedAt, st.next);
      var state := CommitState(st.authoritative, f, i, st.next);
      if state != st.authoritative { RecomputeNotifies(st.(authoritative := state, next := st.next + 1)); }
    case AddOp(id, f, i) =>
      var t := Transition(id, f, i);
      RecomputeNotifies(st.(pending := st.pending + [t]));
      UnheededPrefix(st.authoritative, st.pending, t);
    case RemoveOp(id) =>
      var rest := Without(st.pending, id);
      WithoutLaws(st.pending, id);
      if |rest| != |st.pending| {
        RecomputeNotifies(st.(pending := rest));
        assert AllUnheeded(st.authoritative, st.pending) ==> AllUnheeded(st.authoritative, rest) by {
          assert forall i | 0 <= i < |rest| :: rest[i] in st.pending;
        }
        if forall t | t in st.pending :: t.id != id { NothingToRemove(st.pending, id); }
      }
  }

  /** The same of every operation of a run, when its turn comes. */
  ghost predicate AllHandedOver(st: Store, ops: seq<Op>) {
    ops == [] ||
    (AllHandedOver(st, ops[..|ops| - 1]) && HandedOver(StoreRun(st, ops[..|ops| - 1]), ops[|ops| - 1]))
  }

  /** How many operations of the run notify. */
  ghost function Notifications(st: Store, ops: seq<Op>): nat {
    if ops == [] then 0
    else
      var before := ops[..|ops| - 1];
      Notifications(st, before) + if Notifies(StoreRun(st, before), ops[|ops| - 1]) then 1 else 0
  }

  /** Over a run, from any reachable store, listeners are notified exactly as often as that. */
  lemma {:induction false} PublishedMeaning(st: Store, ops: seq<Op>)
    requires Projected(st) && Fresh(st) && AllHandedOver(st, ops)
    ensures Projected(StoreRun(st, ops)) && Fresh(StoreRun(st, ops))
    ensures StoreRun(st, ops).published == st.published + Notifications(st, ops)
  {
    if ops != [] {
      var before := ops[..|ops| - 1];
      PublishedMeaning(st, before);
      StepKeepsProjected(StoreRun(st, before), ops[|ops| - 1]);
      StepNotifiesIff(StoreRun(st, before), ops[|ops| - 1]);
    }
  }

  /** While a heeded transition is pending, one that says nothing notifies, although the contents stay the same. */
  lemma NotifiedWithoutChange(st: Store, id: nat)
    requires Projected(st) && Fresh(st) && !AllUnheeded(st.authoritative, st.pending)
    ensures var next := Add(st, id, Undef, Undef);
            next.published == st.published + 1 && StripState(next.visible) == StripState(st.visible)
  {
    var t := Transition(id, Undef, Undef);
    StepNotifiesIff(st, AddOp(id, Undef, Undef));
    UnheededPrefix(st.authoritative, st.pending, t);
    ProjectContents(st.authoritative, st.pending, st.projectedAt);
    ProjectContents(st.authoritative, st.pending + [t], st.next);
    assert (st.pending + [t])[..|st.pending|] == st.pending;
  }

  /* ---- the object ---- */

  class DataStore {
    var authoritativeState: State
    var pendingTransitions: seq<Transition>
    var visibleState: State
    var next: nat
    var symbols: nat
    ghost var projectedAt: nat
    ghost var published: nat

    ghost function View(): Store
      reads this
    {
      Store(authoritativeState, pendingTransitions, visibleState, next, projectedAt, published)
    }

    /** Transition ids are handed out in increasing order, so a new one is never already pending. */
    ghost predicate Valid()
      reads this
    {
      && Projected(View())
      && forall i | 0 <= i < |pendingTransitions| :: pendingTransitions[i].id < symbols
    }

    constructor (initialState: State, stamp: nat)
      ensures Valid() && View() == Init(initialState, stamp)
    {
      authoritativeState, visibleState := initialState, initialState;
      pendingTransitions := [];
      next, projectedAt, published, symbols := stamp, stamp, 0, 0;
    }

    method RecomputeVisibleState()
      modifies this
      ensures View() == Recompute(old(View())) && symbols == old(symbols)
    {
      var projected := ProjectLoop(authoritativeState, pendingTransitions, next);
      projectedAt, next := next, next + |pendingTransitions|;
      if projected != visibleState {
        visibleState := projected;
        published := published + 1;
      }
    }

    method CommitAuthoritative(fieldsPatch: Value, infoPatch: Value)
      requires Valid()
      modifies this
      ensures Valid() && View() == Commit(old(View()), fieldsPatch, infoPatch) && symbols == old(symbols)
    {
      var fields := PatchIntoLoop(authoritativeState.fields, fieldsPatch, Ref(next, ["fields"]));
      var info := PatchIntoLoop(authoritativeState.info, infoPatch, Ref(next, ["info"]));
      var state :=
        if StrictEquals(fields, authoritativeState.fields) && StrictEquals(info, authoritativeState.info)
        then authoritativeState else State(next, fields, info);
      if state != authoritativeState {
        authoritativeState, next := state, next + 1;
        RecomputeVisibleState();
      }
    }

    method AddPendingTransition(fieldsPatch: Value, infoPatch: Value) returns (id: nat)
      requires Valid()
      modifies this
      ensures Valid() && View() == Add(old(View()), id, fieldsPatch, infoPatch)
      ensures id == old(symbols) && symbols == old(symbols) + 1
      ensures forall t | t in old(pendingTransitions) :: t.id != id
    {
      id, symbols := symbols, symbols + 1;
      pendingTransitions := pendingTransitions + [Transition(id, fieldsPatch, infoPatch)];
      RecomputeVisibleState();
    }

    method RemovePendingTransition(id: nat)
      requires Valid()
      modifies this
      ensures Valid() && View() == Remove(old(View()), id) && symbols == old(symbols)
    {
      var remaining := FilterOut(pendingTransitions, id);
      WithoutLaws(pendingTransitions, id);
      forall i | 0 <= i < |remaining| ensures remaining[i].id < symbols {
        assert remaining[i] in pendingTransitions;
      }
      if |remaining| != |pendingTransitions| {
        pendingTransitions := remaining;
        RecomputeVisibleState();
      }
    }
  }

  method FilterOut(pending: seq<Transition>, id: nat) returns (remaining: seq<Transition>)
    ensures remaining == Without(pending, id)
  {
    remaining := [];
    for i := 0 to |pending|
      invariant remaining == Without(pending[..i], id)
    {
      assert pending[..i + 1] == pending[..i] + [pending[i]];
      WithoutSnoc(pending[..i], pending[i], id);
      if pending[i].id != id {
        remaining := remaining + [pending[i]];
      }
    }
    assert pending[..|pending|] == pending;
  }
}
