/**
 * Structurally shared merging of patches into field and info trees, the atomic commit of a `{fields, info}`
 * pair, and the projection of pending transitions. Each function takes the reference its new objects get.
 */
module Patch {
  import opened Values

  /* ---- merging ---- */

  function PatchInto(prev: Value, patch: Value, at: Ref): Value
    decreases patch
  {
    if patch.Undef? then prev
    else if !prev.Obj? || !IsRecord(patch) then patch
    else
      var next := map k | k in prev.props.Keys + PropsOf(patch).Keys :: Slot(prev.props, patch, at, k);
      if Differs(prev.props, next) then Obj(at, next) else prev
  }

  /** The merged value of one key; a key the patch does not carry keeps its value. */
  function Slot(props: map<string, Value>, patch: Value, at: Ref, k: string): Value
    decreases patch, 0
  {
    if patch.Obj? && k in patch.props then PatchInto(Get(props, k), patch.props[k], Child(at, k)) else Get(props, k)
  }

  predicate Differs(props: map<string, Value>, next: map<string, Value>) {
    exists k | k in next :: k !in props || !StrictEquals(next[k], props[k])
  }

  method PatchIntoLoop(prev: Value, patch: Value, at: Ref) returns (r: Value)
    ensures r == PatchInto(prev, patch, at)
    decreases if patch.Undef? then 0 else 1, patch
  {
    if patch.Undef? {
      return prev;
    }
    if !prev.Obj? {
      return patch;
    }
    if !IsRecord(patch) {
      return patch;
    }
    var keys := prev.props.Keys + PropsOf(patch).Keys;
    var result: map<string, Value> := map[];
    var changed := false;
    var todo := keys;
    while todo != {}
      invariant todo <= keys && result.Keys == keys - todo
      invariant forall k | k in result :: result[k] == Slot(prev.props, patch, at, k)
      invariant changed <==> Differs(prev.props, result)
    {
      var key :| key in todo;
      todo := todo - {key};
      var nextValue := PatchIntoLoop(Get(prev.props, key), Get(PropsOf(patch), key), Child(at, key));
      ghost var before := result;
      result := result[key := nextValue];
      assert forall k | k in before :: k in result && result[k] == before[k];
      assert key in result;
      if key !in prev.props || !StrictEquals(nextValue, prev.props[key]) {
        changed := true;
      }
    }
    var merged := map k | k in keys :: Slot(prev.props, patch, at, k);
    assert result == merged;
    r := if changed then Obj(at, result) else prev;
  }

  /* ---- structural sharing ---- */

  /**
   * The patch adds no key and changes no leaf, and no merged record holds a NaN (which is never `===` itself).
   */
  ghost predicate Absorbed(prev: Value, patch: Value)
    decreases patch
  {
    || patch.Undef?
    || if prev.Obj? && IsRecord(patch) then
         && (forall k | k in prev.props :: !prev.props[k].NaN?)
         && (patch.Obj? ==> forall k | k in patch.props :: k in prev.props && Absorbed(prev.props[k], patch.props[k]))
       else patch == prev
  }

  lemma BelowIsNotNew(v: Value, n: nat, path: seq<string>, props: map<string, Value>)
    requires Below(v, n)
    ensures v != Obj(Ref(n, path), props)
  {
  }

  /** `prev` itself comes back exactly when the patch is absorbed. */
  lemma {:induction false} SameObjectIffAbsorbed(prev: Value, patch: Value, n: nat, path: seq<string>)
    requires Below(prev, n)
    ensures PatchInto(prev, patch, Ref(n, path)) == prev <==> Absorbed(prev, patch)
    decreases patch
  {
    if !patch.Undef? && prev.Obj? && IsRecord(patch) {
      var at := Ref(n, path);
      var next := map k | k in prev.props.Keys + PropsOf(patch).Keys :: Slot(prev.props, patch, at, k);
      BelowIsNotNew(prev, n, path, next);
      forall k | k in prev.props && patch.Obj? && k in patch.props
        ensures next[k] == prev.props[k] <==> Absorbed(prev.props[k], patch.props[k])
      {
        SameObjectIffAbsorbed(prev.props[k], patch.props[k], n, path + [k]);
      }
      if Absorbed(prev, patch) {
        assert forall k | k in next :: k in prev.props && StrictEquals(next[k], prev.props[k]);
      } else if forall k | k in prev.props :: !prev.props[k].NaN? {
        var k :| k in patch.props && !(k in prev.props && Absorbed(prev.props[k], patch.props[k]));
        assert k in next;
      } else {
        var k :| k in prev.props && prev.props[k].NaN?;
        assert k in next && !StrictEquals(next[k], prev.props[k]);
      }
    }
  }

  /** New objects carry the stamp of the patch; everything older stays older. */
  lemma {:induction false} PatchedBelow(prev: Value, patch: Value, n: nat, path: seq<string>)
    requires Below(prev, n) && Below(patch, n + 1)
    ensures Below(PatchInto(prev, patch, Ref(n, path)), n + 1)
    decreases patch
  {
    BelowLater(prev, n, n + 1);
    if !patch.Undef? && prev.Obj? && patch.Obj? {
      forall k | k in prev.props.Keys + patch.props.Keys
        ensures Below(Slot(prev.props, patch, Ref(n, path), k), n + 1)
      {
        if k in patch.props { PatchedBelow(Get(prev.props, k), patch.props[k], n, path + [k]); }
      }
    }
  }

  lemma {:induction false} BelowLater(v: Value, n: nat, m: nat)
    requires Below(v, n) && n <= m
    ensures Below(v, m)
    decreases v
  {
    match v
    case Arr(_, items) => forall i | 0 <= i < |items| ensures Below(items[i], m) { BelowLater(items[i], n, m); }
    case Obj(_, props) => forall k | k in props ensures Below(props[k], m) { BelowLater(props[k], n, m); }
    case _ =>
  }

  /** No record of `v` that the patch reaches holds a NaN. */
  ghost predicate NaNFree(v: Value, patch: Value)
    decreases patch
  {
    v.Obj? && IsRecord(patch) ==>
      && (forall k | k in v.props :: !v.props[k].NaN?)
      && (patch.Obj? ==> forall k | k in patch.props && k in v.props :: NaNFree(v.props[k], patch.props[k]))
  }

  lemma {:induction false} ResultAbsorbsItsPatch(prev: Value, patch: Value, at: Ref)
    ensures Absorbed(PatchInto(prev, patch, at), patch) <==> NaNFree(PatchInto(prev, patch, at), patch)
    decreases patch, 0
  {
    if patch.Obj? && prev.Obj? {
      var r := PatchInto(prev, patch, at);
      MergedSlots(prev, patch, at);
      forall k | k in patch.props
        ensures k in r.props && (Absorbed(r.props[k], patch.props[k]) <==> NaNFree(r.props[k], patch.props[k]))
      {
        ResultAbsorbsItsPatch(Get(prev.props, k), patch.props[k], Child(at, k));
      }
    } else if patch.Obj? {
      SelfAbsorbs(patch);
    }
  }

  lemma {:induction false} SelfAbsorbs(patch: Value)
    ensures Absorbed(patch, patch) <==> NaNFree(patch, patch)
    decreases patch
  {
    if patch.Obj? {
      forall k | k in patch.props
        ensures Absorbed(patch.props[k], patch.props[k]) <==> NaNFree(patch.props[k], patch.props[k])
      {
        SelfAbsorbs(patch.props[k]);
      }
    }
  }

  /** Whether or not a new object was made, the record holds the merged value of every key. */
  lemma MergedSlots(prev: Value, patch: Value, at: Ref)
    requires prev.Obj? && IsRecord(patch)
    ensures var r := PatchInto(prev, patch, at);
            && r.Obj?
            && r.props.Keys == prev.props.Keys + PropsOf(patch).Keys
            && forall k | k in r.props :: r.props[k] == Slot(prev.props, patch, at, k)
  {
    var next := map k | k in prev.props.Keys + PropsOf(patch).Keys :: Slot(prev.props, patch, at, k);
    if !Differs(prev.props, next) {
      assert forall k | k in next :: k in prev.props;
      assert forall k | k in prev.props :: k in next;
    }
  }

  /**
   * Applying the same patch to its own result gives that very object back, exactly when the records it reaches
   * hold no NaN.
   */
  lemma ReapplyingIsTheSameObject(prev: Value, patch: Value, at: Ref, n: nat, path: seq<string>)
    requires Below(PatchInto(prev, patch, at), n)
    ensures var r := PatchInto(prev, patch, at);
            PatchInto(r, patch, Ref(n, path)) == r <==> NaNFree(r, patch)
  {
    SameObjectIffAbsorbed(PatchInto(prev, patch, at), patch, n, path);
    ResultAbsorbsItsPatch(prev, patch, at);
  }

  /** With a NaN the same no-op patch makes a new object every time. */
  lemma NaNDefeatsSharing()
    ensures var prev := Obj(NoRef, map["ratio" := NaN]);
            var r := PatchInto(prev, Obj(NoRef, map[]), Ref(1, []));
            r != prev && Strip(r) == Strip(prev)
  {
    var prev := Obj(NoRef, map["ratio" := NaN]);
    var patch := Obj(NoRef, map[]);
    MergedSlots(prev, patch, Ref(1, []));
    SameObjectIffAbsorbed(prev, patch, 1, []);
    assert "ratio" in prev.props && prev.props["ratio"].NaN?;
    var r := PatchInto(prev, patch, Ref(1, []));
    assert r.props == prev.props;
  }

  /** Following `path`, the patch ends (or says `undefined`) before it replaces anything. */
  ghost predicate Misses(prev: Value, patch: Value, path: seq<string>)
    decreases |path|
  {
    || patch.Undef?
    || (&& prev.Obj? && IsRecord(patch) && path != [] && path[0] in prev.props
        && (path[0] in PropsOf(patch) ==> Misses(prev.props[path[0]], PropsOf(patch)[path[0]], path[1..])))
  }

  /** What the patch does not reach stays the very same object. */
  lemma {:induction false} UntouchedBranchesAreShared(prev: Value, patch: Value, at: Ref, path: seq<string>)
    requires Misses(prev, patch, path)
    ensures Read(PatchInto(prev, patch, at), path) == Read(prev, path)
    decreases |path|
  {
    if !patch.Undef? {
      var k := path[0];
      MergedSlots(prev, patch, at);
      if k in PropsOf(patch) {
        UntouchedBranchesAreShared(prev.props[k], PropsOf(patch)[k], Child(at, k), path[1..]);
      }
    }
  }

  /* ---- contents: the shared form refines a plain merge ---- */

  /** Merging of contents, always rebuilding: no identities, no change detection. */
  function Merge(prev: Value, patch: Value): Value
    decreases patch
  {
    if patch.Undef? then prev
    else if !prev.Obj? || !IsRecord(patch) then patch
    else Obj(NoRef, map k | k in prev.props.Keys + PropsOf(patch).Keys :: MergeSlot(prev.props, patch, k))
  }

  function MergeSlot(props: map<string, Value>, patch: Value, k: string): Value
    decreases patch, 0
  {
    if patch.Obj? && k in patch.props then Merge(Get(props, k), patch.props[k]) else Get(props, k)
  }

  lemma MergeSlots(prev: Value, patch: Value)
    requires prev.Obj? && IsRecord(patch)
    ensures var m := Merge(prev, patch);
            && m.Obj? && m.ref.NoRef?
            && m.props.Keys == prev.props.Keys + PropsOf(patch).Keys
            && forall k | k in m.props :: m.props[k] == MergeSlot(prev.props, patch, k)
  {
  }

  lemma {:induction false} PatchIntoRefinesMerge(prev: Value, patch: Value, at: Ref)
    ensures Strip(PatchInto(prev, patch, at)) == Merge(Strip(prev), Strip(patch))
    decreases patch, 1
  {
    if !patch.Undef? && prev.Obj? && IsRecord(patch) {
      RecordsRefineMerge(prev, patch, at);
    }
  }

  lemma {:induction false} RecordsRefineMerge(prev: Value, patch: Value, at: Ref)
    requires prev.Obj? && IsRecord(patch)
    ensures Strip(PatchInto(prev, patch, at)) == Merge(Strip(prev), Strip(patch))
    decreases patch, 0
  {
    var r, m := PatchInto(prev, patch, at), Merge(Strip(prev), Strip(patch));
    MergedSlots(prev, patch, at);
    StripSlots(prev);
    if patch.Obj? { StripSlots(patch); }
    StripSlots(r);
    MergeSlots(Strip(prev), Strip(patch));
    forall k | k in r.props ensures Strip(r.props[k]) == m.props[k] {
      if patch.Obj? && k in patch.props { PatchIntoRefinesMerge(Get(prev.props, k), patch.props[k], Child(at, k)); }
      SlotRefines(prev, patch, at, k);
    }
    SameRecord(Strip(r), m);
  }

  lemma SlotRefines(prev: Value, patch: Value, at: Ref, k: string)
    requires prev.Obj? && IsRecord(patch)
    requires patch.Obj? && k in patch.props ==>
      Strip(PatchInto(Get(prev.props, k), patch.props[k], Child(at, k)))
      == Merge(Strip(Get(prev.props, k)), Strip(patch.props[k]))
    ensures Strip(Slot(prev.props, patch, at, k)) == MergeSlot(Strip(prev).props, Strip(patch), k)
  {
    StripSlots(prev);
    var was := Get(prev.props, k);
    assert Strip(was) == Get(Strip(prev).props, k);
    if patch.Obj? && k in patch.props {
      StripSlots(patch);
      assert Strip(patch).props[k] == Strip(patch.props[k]);
      assert Slot(prev.props, patch, at, k) == PatchInto(was, patch.props[k], Child(at, k));
    } else {
      assert Slot(prev.props, patch, at, k) == was;
      assert patch.Obj? ==> k !in Strip(patch).props;
      assert MergeSlot(Strip(prev).props, Strip(patch), k) == Strip(was);
    }
  }

  /**
   * The patch leaves nothing of what it meets. A record does so only if it carries every key of the record it
   * meets, and overwrites each of them; any other value does, but `undefined` and, onto a record, a built-in object.
   */
  ghost predicate Overwrites(prev: Value, patch: Value)
    decreases patch
  {
    if patch.Undef? then prev.Undef?
    else if !prev.Obj? || !IsRecord(patch) then true
    else
      && patch.Obj? && prev.props.Keys <= patch.props.Keys
      && forall k | k in prev.props && k in patch.props :: Overwrites(prev.props[k], patch.props[k])
  }

  /** The contents become those of the patch exactly when it overwrites what was there. */
  lemma {:induction false} ContentsReplacedIffOverwritten(prev: Value, patch: Value)
    ensures Merge(Strip(prev), Strip(patch)) == Strip(patch) <==> Overwrites(prev, patch)
    decreases patch
  {
    if !patch.Undef? && prev.Obj? && patch.Obj? {
      forall k | k in prev.props && k in patch.props
        ensures Merge(Strip(prev.props[k]), Strip(patch.props[k])) == Strip(patch.props[k])
           <==> Overwrites(prev.props[k], patch.props[k])
      {
        ContentsReplacedIffOverwritten(prev.props[k], patch.props[k]);
      }
      RecordReplaced(prev, patch);
    }
  }

  lemma RecordReplaced(prev: Value, patch: Value)
    requires prev.Obj? && patch.Obj?
    ensures Merge(Strip(prev), Strip(patch)) == Strip(patch) <==>
      && prev.props.Keys <= patch.props.Keys
      && forall k | k in prev.props && k in patch.props ::
           Merge(Strip(prev.props[k]), Strip(patch.props[k])) == Strip(patch.props[k])
  {
    var p, q := Strip(prev), Strip(patch);
    StripSlots(prev);
    StripSlots(patch);
    MergeSlots(p, q);
    var m := Merge(p, q);
    forall k | k in q.props ensures m.props[k] == if k in p.props then Merge(p.props[k], q.props[k]) else q.props[k] {
      assert m.props[k] == MergeSlot(p.props, q, k) == Merge(Get(p.props, k), q.props[k]);
    }
    if m.props.Keys == q.props.Keys && forall k | k in q.props :: m.props[k] == q.props[k] {
      SameRecord(m, q);
    }
  }

  /** No path is written by both patches; they may meet in a record. */
  ghost predicate Disjoint(p: Value, q: Value) {
    || p.Undef?
    || q.Undef?
    || (&& p.Obj? && q.Obj?
        && forall k | k in p.props && k in q.props :: Disjoint(p.props[k], q.props[k]))
  }

  /** Stripped values: what `Strip` returns. */
  ghost predicate Plain(v: Value) {
    v.Obj? ==> v.ref.NoRef? && forall k | k in v.props :: Plain(v.props[k])
  }

  lemma {:induction false} StripIsPlain(v: Value)
    ensures Plain(Strip(v))
    decreases v
  {
    if v.Obj? {
      forall k | k in v.props ensures Plain(Strip(v).props[k]) { StripIsPlain(v.props[k]); }
    }
  }

  lemma {:induction false} DisjointMergeSymmetric(p: Value, q: Value)
    requires Disjoint(p, q) && Plain(p) && Plain(q)
    ensures Merge(p, q) == Merge(q, p)
    decreases p
  {
    if p.Obj? && q.Obj? {
      forall k | k in p.props.Keys + q.props.Keys
        ensures MergeSlot(p.props, q, k) == MergeSlot(q.props, p, k)
      {
        if k in p.props && k in q.props { DisjointMergeSymmetric(p.props[k], q.props[k]); }
      }
      assert Merge(p, q).props == Merge(q, p).props;
    }
  }

  /** Patches with disjoint footprints commute, on any base. */
  lemma {:induction false} DisjointPatchesCommute(base: Value, p: Value, q: Value)
    requires Disjoint(p, q) && Plain(base) && Plain(p) && Plain(q)
    ensures Merge(Merge(base, p), q) == Merge(Merge(base, q), p)
    decreases p
  {
    if p.Undef? || q.Undef? {
    } else if !base.Obj? {
      DisjointMergeSymmetric(p, q);
    } else {
      var bp, bq := Merge(base, p), Merge(base, q);
      forall k | k in base.props.Keys + p.props.Keys + q.props.Keys
        ensures MergeSlot(bp.props, q, k) == MergeSlot(bq.props, p, k)
      {
        assert Get(bp.props, k) == MergeSlot(base.props, p, k) && Get(bq.props, k) == MergeSlot(base.props, q, k);
        if k in p.props && k in q.props {
          DisjointPatchesCommute(Get(base.props, k), p.props[k], q.props[k]);
        }
      }
      assert Merge(bp, q).props == Merge(bq, p).props;
    }
  }

  /* ---- commits and projection ---- */

  /** One immutable snapshot; `id` tells one snapshot object from another. */
  datatype State = State(id: nat, fields: Value, info: Value)

  datatype Transition = Transition(id: nat, fieldsPatch: Value, infoPatch: Value)

  function CommitState(prev: State, fieldsPatch: Value, infoPatch: Value, stamp: nat): State {
    var nextFields := PatchInto(prev.fields, fieldsPatch, Ref(stamp, ["fields"]));
    var nextInfo := PatchInto(prev.info, infoPatch, Ref(stamp, ["info"]));
    if StrictEquals(nextFields, prev.fields) && StrictEquals(nextInfo, prev.info) then prev
    else State(stamp, nextFields, nextInfo)
  }

  /** Always recomputed; each commit of the fold allocates under its own stamp. */
  function Project(state: State, pending: seq<Transition>, stamp: nat): State
    decreases |pending|
  {
    if pending == [] then state
    else
      Project(CommitState(state, pending[0].fieldsPatch, pending[0].infoPatch, stamp), pending[1..], stamp + 1)
  }

  method ProjectLoop(authoritative: State, pending: seq<Transition>, stamp: nat) returns (state: State)
    ensures state == Project(authoritative, pending, stamp)
  {
    state := authoritative;
    assert pending[0..] == pending;
    for i := 0 to |pending|
      invariant Project(state, pending[i..], stamp + i) == Project(authoritative, pending, stamp)
    {
      assert pending[i..][0] == pending[i] && pending[i..][1..] == pending[i + 1..];
      var fields := PatchIntoLoop(state.fields, pending[i].fieldsPatch, Ref(stamp + i, ["fields"]));
      var info := PatchIntoLoop(state.info, pending[i].infoPatch, Ref(stamp + i, ["info"]));
      if !(StrictEquals(fields, state.fields) && StrictEquals(info, state.info)) {
        state := State(stamp + i, fields, info);
      }
    }
  }

  function StripState(s: State): (Value, Value) {
    (Strip(s.fields), Strip(s.info))
  }

  /** The contents of a commit are the two merges, whether or not a new snapshot was made. */
  lemma CommitContents(prev: State, fieldsPatch: Value, infoPatch: Value, stamp: nat)
    ensures StripState(CommitState(prev, fieldsPatch, infoPatch, stamp))
         == (Merge(Strip(prev.fields), Strip(fieldsPatch)), Merge(Strip(prev.info), Strip(infoPatch)))
  {
    PatchIntoRefinesMerge(prev.fields, fieldsPatch, Ref(stamp, ["fields"]));
    PatchIntoRefinesMerge(prev.info, infoPatch, Ref(stamp, ["info"]));
  }

  /** Neither tree changes: both patches are absorbed (and no tree is NaN itself, which never equals itself). */
  ghost predicate Unheeded(state: State, fieldsPatch: Value, infoPatch: Value) {
    && Absorbed(state.fields, fieldsPatch) && !state.fields.NaN?
    && Absorbed(state.info, infoPatch) && !state.info.NaN?
  }

  /** `next === prev` exactly when both patches are absorbed: a true no-op, and nothing else, publishes nothing. */
  lemma CommitIsNoOpIffAbsorbed(prev: State, fieldsPatch: Value, infoPatch: Value, stamp: nat)
    requires prev.id < stamp && Below(prev.fields, stamp) && Below(prev.info, stamp)
    ensures CommitState(prev, fieldsPatch, infoPatch, stamp) == prev <==> Unheeded(prev, fieldsPatch, infoPatch)
  {
    SameObjectIffAbsorbed(prev.fields, fieldsPatch, stamp, ["fields"]);
    SameObjectIffAbsorbed(prev.info, infoPatch, stamp, ["info"]);
  }

  /* ---- last writer wins ---- */

  /** `path` leads through records to a leaf of `v`. */
  ghost predicate LeadsToLeaf(v: Value, path: seq<string>) {
    Read(v, path).Found? && !Read(v, path).value.Obj?
  }

  /** As far as it goes along `path`, the patch has the shape of a tree with a leaf there. */
  ghost predicate Shaped(patch: Value, path: seq<string>)
    decreases |path|
  {
    || patch.Undef?
    || if path == [] then !patch.Obj?
       else patch.Obj? && (path[0] in patch.props ==> Shaped(patch.props[path[0]], path[1..]))
  }

  /** What the patch writes at `path`; an explicit `undefined` writes nothing. */
  function WrittenAt(patch: Value, path: seq<string>): Found
    decreases |path|
  {
    if patch.Undef? then Missing
    else if path == [] then Found(patch)
    else if path[0] in PropsOf(patch) then WrittenAt(PropsOf(patch)[path[0]], path[1..])
    else Missing
  }

  lemma {:induction false} LeafAfterPatch(prev: Value, patch: Value, at: Ref, path: seq<string>)
    requires LeadsToLeaf(prev, path) && Shaped(patch, path)
    ensures LeadsToLeaf(PatchInto(prev, patch, at), path)
    ensures Read(PatchInto(prev, patch, at), path)
         == if WrittenAt(patch, path).Found? then WrittenAt(patch, path) else Read(prev, path)
    decreases |path|
  {
    if !patch.Undef? && path != [] {
      var k := path[0];
      MergedSlots(prev, patch, at);
      if k in patch.props { LeafAfterPatch(prev.props[k], patch.props[k], Child(at, k), path[1..]); }
    }
  }

  /** The last pending transition that writes `path`, from the end. */
  function LastWritten(pending: seq<Transition>, path: seq<string>): Found {
    if pending == [] then Missing
    else
      var last := WrittenAt(pending[|pending| - 1].fieldsPatch, path);
      if last.Found? then last else LastWritten(pending[..|pending| - 1], path)
  }

  lemma {:induction false} ProjectSnoc(state: State, pending: seq<Transition>, last: Transition, stamp: nat)
    ensures Project(state, pending + [last], stamp)
         == CommitState(Project(state, pending, stamp), last.fieldsPatch, last.infoPatch, stamp + |pending|)
    decreases |pending|
  {
    if pending == [] {
      assert [last][1..] == [];
    } else {
      assert (pending + [last])[1..] == pending[1..] + [last];
      var first := CommitState(state, pending[0].fieldsPatch, pending[0].infoPatch, stamp);
      ProjectSnoc(first, pending[1..], last, stamp + 1);
    }
  }

  /**
   * Reading a leaf of the projection gives, as the same object, what the last pending transition that writes it
   * put there, and what is authoritative when none does.
   */
  lemma {:induction false} LastWriterWins(state: State, pending: seq<Transition>, stamp: nat, path: seq<string>)
    requires LeadsToLeaf(state.fields, path)
    requires forall i | 0 <= i < |pending| :: Shaped(pending[i].fieldsPatch, path)
    ensures LeadsToLeaf(Project(state, pending, stamp).fields, path)
    ensures Read(Project(state, pending, stamp).fields, path)
         == if LastWritten(pending, path).Found? then LastWritten(pending, path) else Read(state.fields, path)
    decreases |pending|
  {
    if pending != [] {
      var n := |pending| - 1;
      LastWriterWins(state, pending[..n], stamp, path);
      assert pending == pending[..n] + [pending[n]];
      ProjectSnoc(state, pending[..n], pending[n], stamp);
      var before := Project(state, pending[..n], stamp);
      LeafAfterPatch(before.fields, pending[n].fieldsPatch, Ref(stamp + n, ["fields"]), path);
    }
  }
}
