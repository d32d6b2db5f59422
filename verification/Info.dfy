/**
 * The info tree: a record mirroring the fields, with metadata under reserved keys at each node. `InfoPatch` places
 * one piece of metadata at every path an operation declares `true`.
 */
module Info {
  import opened Values
  import opened Patch
  import opened Ownership

  const META_KEYS := {"status", "optimistic", "error", "source", "subscription"}

  const LOADING := Str("loading")
  const SUCCESS := Str("success")
  const FAILURE := Str("error")

  /** Field names are assumed to differ from the metadata keys, in ownership declarations as everywhere. */
  ghost predicate NoMeta(own: Own) {
    own.Parts? ==> forall k | k in own.fields :: k !in META_KEYS && NoMeta(own.fields[k])
  }

  predicate FieldPath(path: seq<string>) {
    forall i | 0 <= i < |path| :: path[i] !in META_KEYS
  }

  function InfoPatch(own: Own, meta: Value, at: Ref): Value {
    match own
    case Whole => meta
    case Parts(fields) => Obj(at, map k | k in fields :: InfoPatch(fields[k], meta, Child(at, k)))
  }

  method BuildInfoPatch(own: Own, meta: Value, at: Ref) returns (patch: Value)
    ensures patch == InfoPatch(own, meta, at)
  {
    match own
    case Whole => patch := meta;
    case Parts(fields) =>
      var result: map<string, Value> := map[];
      var todo := fields.Keys;
      while todo != {}
        invariant todo <= fields.Keys && result.Keys == fields.Keys - todo
        invariant forall k | k in result :: result[k] == InfoPatch(fields[k], meta, Child(at, k))
      {
        var key :| key in todo;
        todo := todo - {key};
        var child := BuildInfoPatch(fields[key], meta, Child(at, key));
        result := result[key := child];
      }
      patch := Obj(at, result);
      assert patch.props == InfoPatch(own, meta, at).props;
  }

  /** The operation declares `true` at exactly `path`: there its metadata goes. */
  predicate Covers(own: Own, path: seq<string>)
    decreases |path|
  {
    match own
    case Whole => path == []
    case Parts(fields) => path != [] && path[0] in fields && Covers(fields[path[0]], path[1..])
  }

  /** Reserved keys hold metadata; every other key leads to a node of the same kind. */
  ghost predicate InfoTree(v: Value) {
    v.Obj? && forall k | k in v.props && k !in META_KEYS :: InfoTree(v.props[k])
  }

  ghost predicate IsMeta(meta: Value) {
    meta.Obj? && meta.props.Keys <= META_KEYS && ("status" in meta.props ==> meta.props["status"].Str?)
  }

  /** The metadata recorded under `key` at a path; Undef when there is none. */
  function MetaAt(info: Value, path: seq<string>, key: string): Value
    decreases |path|
  {
    if path == [] then Get(PropsOf(info), key)
    else if info.Obj? && path[0] in info.props then MetaAt(info.props[path[0]], path[1..], key)
    else Undef
  }

  function StatusAt(info: Value, path: seq<string>): Value {
    MetaAt(info, path, "status")
  }

  lemma FieldPathTail(path: seq<string>)
    requires FieldPath(path) && path != []
    ensures path[0] !in META_KEYS && FieldPath(path[1..])
  {
    assert forall i | 0 <= i < |path| - 1 :: path[1..][i] == path[i + 1];
  }

  lemma {:induction false} FreshInfo(own: Own, meta: Value, at: Ref, path: seq<string>, key: string)
    requires NoMeta(own) && IsMeta(meta) && FieldPath(path) && key in META_KEYS
    ensures InfoTree(InfoPatch(own, meta, at))
    ensures MetaAt(InfoPatch(own, meta, at), path, key)
         == if Covers(own, path) then Get(meta.props, key) else Undef
    decreases own
  {
    match own
    case Whole =>
      if path != [] { assert path[0] !in meta.props; }
    case Parts(fields) =>
      var patch := InfoPatch(own, meta, at);
      forall k | k in fields ensures InfoTree(patch.props[k]) { FreshInfo(fields[k], meta, Child(at, k), [], key); }
      if path == [] {
        assert key !in fields;
      } else if path[0] in fields {
        FieldPathTail(path);
        FreshInfo(fields[path[0]], meta, Child(at, path[0]), path[1..], key);
      }
  }

  /** What a commit leaves under `key` at `path`: the operation's metadata merged in there, or what was there. */
  function MetaAfter(prev: Value, own: Own, meta: Value, path: seq<string>, key: string, at: Ref): Value
    requires meta.Obj?
  {
    if Covers(own, path) then PatchInto(prev, Get(meta.props, key), at) else prev
  }

  /**
   * Committing an operation's metadata merges it in at exactly the paths the operation declares, and leaves the
   * metadata of every other path as it was -- whatever other operations recorded above or below.
   */
  lemma {:induction false} MetaAfterPatch(
      prev: Value, own: Own, meta: Value, at: Ref, commitAt: Ref, path: seq<string>, key: string)
    requires InfoTree(prev) && NoMeta(own) && IsMeta(meta) && FieldPath(path) && key in META_KEYS
    ensures InfoTree(PatchInto(prev, InfoPatch(own, meta, at), commitAt))
    ensures MetaAt(PatchInto(prev, InfoPatch(own, meta, at), commitAt), path, key)
         == MetaAfter(MetaAt(prev, path, key), own, meta, path, key, Child(RefAt(commitAt, path), key))
    decreases own, 1
  {
    var patch := InfoPatch(own, meta, at);
    MergedSlots(prev, patch, commitAt);
    var r := PatchInto(prev, patch, commitAt);
    match own
    case Whole =>
      forall k | k in r.props && k !in META_KEYS ensures k in prev.props && r.props[k] == prev.props[k] {
        assert k !in meta.props;
      }
      if path == [] {
        assert key in r.props ==> r.props[key] == Slot(prev.props, meta, commitAt, key);
      } else {
        FieldPathTail(path);
        assert path[0] in r.props <==> path[0] in prev.props;
      }
    case Parts(fields) =>
      forall k | k in r.props && k !in META_KEYS ensures InfoTree(r.props[k]) {
        SubtreeAfterPatch(prev, own, meta, at, commitAt, k, [], key);
      }
      if path == [] {
        assert key !in fields;
      } else {
        FieldPathTail(path);
        SubtreeAfterPatch(prev, own, meta, at, commitAt, path[0], path[1..], key);
      }
  }

  lemma {:induction false} SubtreeAfterPatch(
      prev: Value, own: Own, meta: Value, at: Ref, commitAt: Ref, k: string, rest: seq<string>, key: string)
    requires own.Parts? && InfoTree(prev) && NoMeta(own) && IsMeta(meta) && FieldPath(rest)
    requires k !in META_KEYS && key in META_KEYS
    ensures var slot := Slot(prev.props, InfoPatch(own, meta, at), commitAt, k);
            && (k in prev.props || k in own.fields ==> InfoTree(slot))
            && MetaAt(slot, rest, key)
               == if k in own.fields
                  then MetaAfter(MetaAt(Get(prev.props, k), rest, key), own.fields[k], meta, rest, key,
                                 Child(RefAt(Child(commitAt, k), rest), key))
                  else MetaAt(Get(prev.props, k), rest, key)
    decreases own, 0
  {
    var fields, patch := own.fields, InfoPatch(own, meta, at);
    assert patch.props.Keys == fields.Keys;
    if k in fields {
      var sub := InfoPatch(fields[k], meta, Child(at, k));
      assert patch.props[k] == sub;
      if k in prev.props {
        MetaAfterPatch(prev.props[k], fields[k], meta, Child(at, k), Child(commitAt, k), rest, key);
      } else {
        FreshInfo(fields[k], meta, Child(at, k), rest, key);
        assert Slot(prev.props, patch, commitAt, k) == PatchInto(Undef, sub, Child(commitAt, k)) == sub;
      }
    }
  }

  /** A status is replaced outright where the operation declares it, and kept everywhere else. */
  lemma StatusAfterPatch(prev: Value, own: Own, meta: Value, at: Ref, commitAt: Ref, path: seq<string>)
    requires InfoTree(prev) && NoMeta(own) && IsMeta(meta) && FieldPath(path)
    ensures InfoTree(PatchInto(prev, InfoPatch(own, meta, at), commitAt))
    ensures StatusAt(PatchInto(prev, InfoPatch(own, meta, at), commitAt), path)
         == if Covers(own, path) && "status" in meta.props then meta.props["status"] else StatusAt(prev, path)
  {
    MetaAfterPatch(prev, own, meta, at, commitAt, path, "status");
  }
}
