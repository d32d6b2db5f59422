/**
 * Declared field schemas: their defaults, the check of a value against them, and what it means for a value or a
 * patch to conform. A schema here is the finite tree a declaration denotes; `SchemaGraph` relates it to the
 * object graph a developer actually writes.
 */
module Schemas {
  import opened Options
  import opened Values
  import opened Patch

  datatype MarkerKind = Nullable | Optional

  type Scalar = v: Value | !v.Obj? && !v.Arr? && !v.Builtin? witness Undef

  /** `Leaf` holds a default that is no object (or is `null`); `Fixed` holds a Date, URL or RegExp. */
  datatype Schema =
    | Leaf(default: Scalar)
    | Fixed(builtin: Builtins, ref: Ref)
    | List(items: seq<Schema>)
    | Node(props: map<string, Schema>)
    | Marker(kind: MarkerKind, inner: Schema)

  function Decimal(n: nat): string {
    if n < 10 then ["0123456789"[n]] else Decimal(n / 10) + ["0123456789"[n % 10]]
  }

  /** `resolveFieldDefaults` on a schema it accepts: markers become null or undefined, the rest is copied. */
  function Default(s: Schema, at: Ref): Value {
    match s
    case Leaf(v) => v
    case Fixed(kind, ref) => Builtin(kind, ref)
    case List(items) => Arr(at, seq(|items|, i requires 0 <= i < |items| => Default(items[i], Child(at, Decimal(i)))))
    case Node(props) => Obj(at, map k | k in props :: Default(props[k], Child(at, k)))
    case Marker(kind, _) => if kind.Nullable? then Null else Undef
  }

  /** The accepted form of `v`, or None when its shape is wrong. Nested objects are checked key by key. */
  function CheckValue(s: Schema, v: Value, at: Ref): Option<Value>
    decreases s, 0
  {
    match s
    case Marker(kind, inner) =>
      if kind.Nullable? && v.Null? then Some(Null)
      else if kind.Optional? && v.Undef? then Some(Undef)
      else CheckValue(inner, v, at)
    case Fixed(kind, _) => if v.Builtin? && v.kind == kind then Some(v) else None
    case List(_) => if v.Arr? then Some(v) else None
    case Node(props) =>
      if !IsRecord(v) then None
      else
        Some(Obj(at, map k | k in PropsOf(v) && k in props ::
                       CheckedOrDefault(props[k], PropsOf(v)[k], Child(at, k))))
    case Leaf(d) => if TypeOf(v) == TypeOf(d) then Some(v) else None
  }

  function CheckedOrDefault(s: Schema, v: Value, at: Ref): Value
    decreases s, 1
  {
    match CheckValue(s, v, at) case Some(a) => a case None => Default(s, at)
  }

  /* ---- what a default is, and what the check makes of a value ---- */

  /** Markers stand for `null` and `undefined`; everything else for a copy of what is declared, at every depth. */
  ghost predicate IsDefault(s: Schema, v: Value)
    decreases s
  {
    match s
    case Leaf(declared) => v == declared
    case Fixed(kind, ref) => v == Builtin(kind, ref)
    case List(items) =>
      && v.Arr? && |v.items| == |items|
      && forall i | 0 <= i < |items| :: IsDefault(items[i], v.items[i])
    case Node(props) =>
      && v.Obj? && v.props.Keys == props.Keys
      && forall k | k in props && k in v.props :: IsDefault(props[k], v.props[k])
    case Marker(kind, _) => if kind.Nullable? then v.Null? else v.Undef?
  }

  lemma {:induction false} DefaultMeaning(s: Schema, at: Ref)
    ensures IsDefault(s, Default(s, at))
    decreases s
  {
    match s
    case List(items) =>
      forall i | 0 <= i < |items| ensures IsDefault(items[i], Default(items[i], Child(at, Decimal(i)))) {
        DefaultMeaning(items[i], Child(at, Decimal(i)));
      }
    case Node(props) =>
      forall k | k in props ensures IsDefault(props[k], Default(props[k], Child(at, k))) {
        DefaultMeaning(props[k], Child(at, k));
      }
    case _ =>
  }

  /** The value has the shape of the schema as far as its outermost object goes. */
  predicate Admits(s: Schema, v: Value) {
    match s
    case Leaf(declared) => TypeOf(v) == TypeOf(declared)
    case Fixed(kind, _) => v.Builtin? && v.kind == kind
    case List(_) => v.Arr?
    case Node(_) => IsRecord(v)
    case Marker(kind, inner) => (kind.Nullable? && v.Null?) || (kind.Optional? && v.Undef?) || Admits(inner, v)
  }

  /** `r` is `v` without its undeclared keys, and with the default wherever the shape is wrong, at every depth. */
  ghost predicate Cleaned(s: Schema, v: Value, r: Value)
    decreases s
  {
    match s
    case Node(props) =>
      if !IsRecord(v) then IsDefault(s, r)
      else
        && r.Obj? && r.props.Keys == PropsOf(v).Keys * props.Keys
        && forall k | k in r.props :: Cleaned(props[k], PropsOf(v)[k], r.props[k])
    case Marker(_, inner) =>
      if !Admits(s, v) then IsDefault(s, r) else if v.Null? || v.Undef? then r == v else Cleaned(inner, v, r)
    case _ => if Admits(s, v) then r == v else IsDefault(s, r)
  }

  /** The check accepts whatever has the outermost shape; and what becomes of a value, either way, is that. */
  lemma {:induction false} CheckMeaning(s: Schema, v: Value, at: Ref)
    ensures CheckValue(s, v, at).Some? <==> Admits(s, v)
    ensures Cleaned(s, v, CheckedOrDefault(s, v, at))
    decreases s
  {
    DefaultMeaning(s, at);
    match s
    case Node(props) =>
      if IsRecord(v) {
        var r := CheckValue(s, v, at).value;
        forall k | k in r.props ensures Cleaned(props[k], PropsOf(v)[k], r.props[k]) {
          CheckMeaning(props[k], PropsOf(v)[k], Child(at, k));
        }
      }
    case Marker(_, inner) => CheckMeaning(inner, v, at);
    case _ =>
  }

  /* ---- the loop over a nested object's keys ---- */

  method CheckPlainObject(s: Schema, v: Value, at: Ref) returns (r: Option<Value>)
    requires s.Node?
    ensures r == CheckValue(s, v, at)
    decreases s, 0
  {
    if !IsRecord(v) {
      return None;
    }
    var props, values := s.props, PropsOf(v);
    var todo := values.Keys;
    var result: map<string, Value> := map[];
    while todo != {}
      invariant todo <= values.Keys
      invariant result.Keys == (values.Keys - todo) * props.Keys
      invariant forall k | k in result :: result[k] == CheckedOrDefault(props[k], values[k], Child(at, k))
    {
      var key :| key in todo;
      todo := todo - {key};
      if key !in props {
        continue;
      }
      var nested := CheckValueAgainstSchema(props[key], values[key], Child(at, key));
      result := result[key := if nested.Some? then nested.value else Default(props[key], Child(at, key))];
    }
    var checked := map k | k in values && k in props :: CheckedOrDefault(props[k], values[k], Child(at, k));
    assert result == checked;
    return Some(Obj(at, result));
  }

  method CheckValueAgainstSchema(s: Schema, v: Value, at: Ref) returns (r: Option<Value>)
    ensures r == CheckValue(s, v, at)
    decreases s, 1
  {
    match s
    case Marker(kind, inner) =>
      if kind.Nullable? && v.Null? {
        r := Some(Null);
      } else if kind.Optional? && v.Undef? {
        r := Some(Undef);
      } else {
        r := CheckValueAgainstSchema(inner, v, at);
      }
    case Node(_) => r := CheckPlainObject(s, v, at);
    case _ => r := CheckValue(s, v, at);
  }

  /* ---- conformance ---- */

  /**
   * `v` has the declared shape. A total value has every key a plain-object node declares; a partial one may lack
   * some, and below a marker every object may, since a first non-null value replaces the null outright.
   */
  ghost predicate Conforms(s: Schema, v: Value, total: bool)
    decreases s
  {
    match s
    case Leaf(d) => TypeOf(v) == TypeOf(d)
    case Fixed(kind, _) => v.Builtin? && v.kind == kind
    case List(_) => v.Arr?
    case Node(props) =>
      && v.Obj?
      && v.props.Keys <= props.Keys
      && (total ==> props.Keys <= v.props.Keys)
      && forall k | k in v.props :: Conforms(props[k], v.props[k], total)
    case Marker(kind, inner) =>
      (kind.Nullable? && v.Null?) || (kind.Optional? && v.Undef?) || Conforms(inner, v, false)
  }

  lemma {:induction false} TotalIsPartial(s: Schema, v: Value)
    requires Conforms(s, v, true)
    ensures Conforms(s, v, false)
    decreases s
  {
    if s.Node? {
      forall k | k in v.props ensures Conforms(s.props[k], v.props[k], false) {
        TotalIsPartial(s.props[k], v.props[k]);
      }
    }
  }

  lemma {:induction false} DefaultConforms(s: Schema, at: Ref)
    ensures Conforms(s, Default(s, at), true)
    decreases s
  {
    if s.Node? {
      forall k | k in s.props ensures Conforms(s.props[k], Default(s, at).props[k], true) {
        DefaultConforms(s.props[k], Child(at, k));
      }
    }
  }

  lemma CheckedSlots(s: Schema, v: Value, at: Ref)
    requires s.Node? && IsRecord(v)
    ensures var r := CheckValue(s, v, at);
            && r.Some? && r.value.Obj? && r.value.ref == at
            && r.value.props.Keys == PropsOf(v).Keys * s.props.Keys
            && forall k | k in r.value.props ::
              r.value.props[k] == CheckedOrDefault(s.props[k], PropsOf(v)[k], Child(at, k))
  {
  }

  /** Whatever the check accepts, after its nested resets, conforms. */
  lemma {:induction false} CheckedConforms(s: Schema, v: Value, at: Ref)
    ensures CheckValue(s, v, at).Some? ==> Conforms(s, CheckValue(s, v, at).value, false)
    decreases s
  {
    match s
    case Node(props) =>
      if IsRecord(v) {
        var r := CheckValue(s, v, at).value;
        forall k | k in r.props ensures Conforms(props[k], r.props[k], false) {
          assert r.props[k] == CheckedOrDefault(props[k], PropsOf(v)[k], Child(at, k)) by { CheckedSlots(s, v, at); }
          CheckedConforms(props[k], PropsOf(v)[k], Child(at, k));
          DefaultConforms(props[k], Child(at, k));
          TotalIsPartial(props[k], Default(props[k], Child(at, k)));
        }
      }
    case Marker(_, inner) => CheckedConforms(inner, v, at);
    case _ =>
  }

  /** The check is no stricter than conformance: a conforming value passes with its contents unchanged. */
  lemma {:induction false} ConformingPassesUnchanged(s: Schema, v: Value, at: Ref)
    requires Conforms(s, v, false)
    ensures CheckValue(s, v, at).Some?
    ensures Strip(CheckValue(s, v, at).value) == Strip(v)
    decreases s
  {
    match s
    case Node(props) =>
      CheckedSlots(s, v, at);
      var r := CheckValue(s, v, at).value;
      forall k | k in v.props ensures k in r.props && Strip(r.props[k]) == Strip(v.props[k]) {
        ConformingPassesUnchanged(props[k], v.props[k], Child(at, k));
      }
      StripSlots(v);
      StripSlots(r);
      SameRecord(Strip(r), Strip(v));
    case Marker(_, inner) =>
      if CheckValue(s, v, at) == CheckValue(inner, v, at) && Conforms(inner, v, false) {
        ConformingPassesUnchanged(inner, v, at);
      }
    case _ =>
  }

  /**
   * Merging a conforming patch into a conforming value keeps it conforming; a value with all its declared keys
   * keeps all of them.
   */
  lemma {:induction false} PatchKeepsConforming(s: Schema, prev: Value, patch: Value, at: Ref, total: bool)
    requires Conforms(s, prev, total)
    requires patch.Undef? || Conforms(s, patch, false)
    ensures Conforms(s, PatchInto(prev, patch, at), total)
    decreases s
  {
    if !patch.Undef? && prev.Obj? && IsRecord(patch) {
      MergedSlots(prev, patch, at);
      match s
      case Node(props) =>
        var r := PatchInto(prev, patch, at);
        forall k | k in r.props ensures k in props && Conforms(props[k], r.props[k], total) {
          if k in patch.props && k in prev.props {
            PatchKeepsConforming(props[k], prev.props[k], patch.props[k], Child(at, k), total);
          }
          SlotConforms(props, prev, patch, at, k, total);
        }
        NodeConforms(s, r, total);
      case Marker(_, inner) => PatchKeepsConforming(inner, prev, patch, at, false);
      case Leaf(_) =>
    }
  }

  lemma SlotConforms(props: map<string, Schema>, prev: Value, patch: Value, at: Ref, k: string, total: bool)
    requires Conforms(Node(props), prev, total) && Conforms(Node(props), patch, false)
    requires k in prev.props || k in patch.props
    requires k in prev.props && k in patch.props ==>
      Conforms(props[k], PatchInto(prev.props[k], patch.props[k], Child(at, k)), total)
    ensures k in props && Conforms(props[k], Slot(prev.props, patch, at, k), total)
  {
    if k !in patch.props {
      assert Slot(prev.props, patch, at, k) == prev.props[k];
    } else if k !in prev.props {
      assert Slot(prev.props, patch, at, k) == PatchInto(Undef, patch.props[k], Child(at, k)) == patch.props[k];
      assert !total;
    } else {
      assert Slot(prev.props, patch, at, k) == PatchInto(prev.props[k], patch.props[k], Child(at, k));
    }
  }

  lemma NodeConforms(s: Schema, v: Value, total: bool)
    requires s.Node? && v.Obj? && (total ==> s.props.Keys <= v.props.Keys)
    requires forall k | k in v.props :: k in s.props && Conforms(s.props[k], v.props[k], total)
    ensures Conforms(s, v, total)
  {
  }

  /**
   * Whether `patch` suits the value it meets: what replaces a value, or adds a key, has the declared shape; an
   * explicit `undefined` for a key that is there, and a record without keys, write nothing and always suit.
   */
  ghost predicate Suits(s: Schema, prev: Value, patch: Value, total: bool)
    decreases patch, s
  {
    if patch.Undef? then true
    else if !prev.Obj? || !IsRecord(patch) then Conforms(s, patch, total)
    else
      match s
      case Node(props) =>
        forall k | k in PropsOf(patch) ::
          k in props
          && (if k in prev.props then Suits(props[k], prev.props[k], PropsOf(patch)[k], total)
              else Conforms(props[k], PropsOf(patch)[k], total))
      case Marker(_, inner) => Suits(inner, prev, patch, false)
      case _ => true
  }

  /** A merge into a conforming value conforms exactly when the patch suits that value. */
  lemma {:induction false} PatchConformsIffSuits(s: Schema, prev: Value, patch: Value, at: Ref, total: bool)
    requires Conforms(s, prev, total)
    ensures Conforms(s, PatchInto(prev, patch, at), total) <==> Suits(s, prev, patch, total)
    decreases patch, s
  {
    if !patch.Undef? && prev.Obj? && IsRecord(patch) {
      MergedSlots(prev, patch, at);
      match s
      case Node(props) =>
        forall k | k in PropsOf(patch) && k in prev.props
          ensures Conforms(props[k], Slot(prev.props, patch, at, k), total)
             <==> Suits(props[k], prev.props[k], PropsOf(patch)[k], total)
        {
          PatchConformsIffSuits(props[k], prev.props[k], PropsOf(patch)[k], Child(at, k), total);
        }
        NodeSlotsConform(props, prev, patch, at, total);
      case Marker(_, inner) => PatchConformsIffSuits(inner, prev, patch, at, false);
      case Leaf(_) =>
    }
  }

  lemma NodeSlotsConform(props: map<string, Schema>, prev: Value, patch: Value, at: Ref, total: bool)
    requires prev.Obj? && IsRecord(patch) && Conforms(Node(props), prev, total)
    requires forall k | k in PropsOf(patch) && k in prev.props ::
      (Conforms(props[k], Slot(prev.props, patch, at, k), total)
       <==> Suits(props[k], prev.props[k], PropsOf(patch)[k], total))
    ensures Conforms(Node(props), PatchInto(prev, patch, at), total) <==> Suits(Node(props), prev, patch, total)
  {
    MergedSlots(prev, patch, at);
    var s, r := Node(props), PatchInto(prev, patch, at);
    forall k | k in r.props && k !in prev.props ensures k in PropsOf(patch) && r.props[k] == PropsOf(patch)[k] {
      assert r.props[k] == PatchInto(Undef, patch.props[k], Child(at, k));
    }
    forall k | k in prev.props && k !in PropsOf(patch) ensures r.props[k] == prev.props[k] {
      assert r.props[k] == Slot(prev.props, patch, at, k);
    }
    if Suits(s, prev, patch, total) {
      forall k | k in r.props ensures k in props && Conforms(props[k], r.props[k], total) {
        assert k in prev.props || k in PropsOf(patch);
      }
      NodeConforms(s, r, total);
    }
    if Conforms(s, r, total) {
      forall k | k in PropsOf(patch)
        ensures k in props
             && (if k in prev.props then Suits(props[k], prev.props[k], PropsOf(patch)[k], total)
                 else Conforms(props[k], PropsOf(patch)[k], total))
      {
        assert k in r.props;
      }
    }
  }

  /* ---- references do not influence contents ---- */

  lemma {:induction false} DefaultContents(s: Schema, at: Ref, other: Ref)
    ensures Strip(Default(s, at)) == Strip(Default(s, other))
    decreases s
  {
    var a, b := Default(s, at), Default(s, other);
    match s
    case List(items) =>
      forall i | 0 <= i < |items| ensures Strip(a.items[i]) == Strip(b.items[i]) {
        DefaultContents(items[i], Child(at, Decimal(i)), Child(other, Decimal(i)));
      }
      assert Strip(a).items == Strip(b).items;
    case Node(props) =>
      forall k | k in props ensures Strip(a.props[k]) == Strip(b.props[k]) {
        DefaultContents(props[k], Child(at, k), Child(other, k));
      }
      StripSlots(a);
      StripSlots(b);
      SameRecord(Strip(a), Strip(b));
    case _ =>
  }

  lemma {:induction false} CheckContents(s: Schema, v: Value, at: Ref, other: Ref)
    ensures CheckValue(s, v, at).Some? <==> CheckValue(s, v, other).Some?
    ensures CheckValue(s, v, at).Some? ==> Strip(CheckValue(s, v, at).value) == Strip(CheckValue(s, v, other).value)
    decreases s, 0
  {
    match s
    case Node(props) =>
      if IsRecord(v) {
        var a, b := CheckValue(s, v, at).value, CheckValue(s, v, other).value;
        forall k | k in a.props ensures Strip(a.props[k]) == Strip(b.props[k]) {
          CheckedOrDefaultContents(props[k], PropsOf(v)[k], Child(at, k), Child(other, k));
        }
        StripSlots(a);
        StripSlots(b);
        SameRecord(Strip(a), Strip(b));
      }
    case Marker(_, inner) => CheckContents(inner, v, at, other);
    case _ =>
  }

  lemma {:induction false} CheckedOrDefaultContents(s: Schema, v: Value, at: Ref, other: Ref)
    ensures Strip(CheckedOrDefault(s, v, at)) == Strip(CheckedOrDefault(s, v, other))
    decreases s, 1
  {
    CheckContents(s, v, at, other);
    DefaultContents(s, at, other);
  }
}
