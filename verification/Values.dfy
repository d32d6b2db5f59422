/**
 * Runtime values as the state layer sees them. Objects carry a reference: `Ref(stamp, path)` names the object
 * that allocation number `stamp` created at `path`, so Dafny equality of values is `===` (with NaN the one
 * value that is not `===` to itself). A record is seen through its own enumerable keys only.
 */
module Values {
  datatype Ref = NoRef | Ref(stamp: nat, path: seq<string>)
  datatype Builtins = DateObject | UrlObject | RegExpObject
  datatype Type = TUndefined | TObject | TFunction | TBoolean | TNumber | TString | TBigInt | TSymbol

  datatype Value =
    | Undef
    | Null
    | Boolean(b: bool)
    | Number(text: string)
    | NaN
    | Str(s: string)
    | BigInt(i: int)
    | Symbol(sid: nat)
    | Function(fid: nat)
    | Builtin(kind: Builtins, ref: Ref)
    | Arr(ref: Ref, items: seq<Value>)
    | Obj(ref: Ref, props: map<string, Value>)

  function TypeOf(v: Value): Type {
    match v
    case Undef => TUndefined
    case Boolean(_) => TBoolean
    case Number(_) => TNumber
    case NaN => TNumber
    case Str(_) => TString
    case BigInt(_) => TBigInt
    case Symbol(_) => TSymbol
    case Function(_) => TFunction
    case Null => TObject
    case Builtin(_, _) => TObject
    case Arr(_, _) => TObject
    case Obj(_, _) => TObject
  }

  /** An object that is not an array; a built-in object has no enumerable keys of its own. */
  predicate IsRecord(v: Value) {
    v.Obj? || v.Builtin?
  }

  function PropsOf(v: Value): map<string, Value> {
    if v.Obj? then v.props else map[]
  }

  /** Reading a property: `undefined` when the key is absent. */
  function Get(props: map<string, Value>, key: string): Value {
    if key in props then props[key] else Undef
  }

  predicate StrictEquals(a: Value, b: Value) {
    a == b && !a.NaN?
  }

  function Child(at: Ref, key: string): Ref {
    match at case NoRef => NoRef case Ref(stamp, path) => Ref(stamp, path + [key])
  }

  /** The value found by following `path` through records. */
  datatype Found = Missing | Found(value: Value)

  function Read(v: Value, path: seq<string>): Found
    decreases |path|
  {
    if path == [] then Found(v)
    else if v.Obj? && path[0] in v.props then Read(v.props[path[0]], path[1..])
    else Missing
  }

  ghost predicate RefBefore(at: Ref, n: nat) {
    at.NoRef? || at.stamp < n
  }

  /** Every object in `v` was allocated before stamp `n`. */
  ghost predicate Below(v: Value, n: nat) {
    match v
    case Builtin(_, ref) => RefBefore(ref, n)
    case Arr(ref, items) =>
      && RefBefore(ref, n)
      && forall i | 0 <= i < |items| :: Below(items[i], n)
    case Obj(ref, props) =>
      && RefBefore(ref, n)
      && forall k | k in props :: Below(props[k], n)
    case _ => true
  }

  /** The contents of a value, without the identities of its records and arrays. */
  function Strip(v: Value): Value {
    match v
    case Arr(_, items) => Arr(NoRef, seq(|items|, i requires 0 <= i < |items| => Strip(items[i])))
    case Obj(_, props) => Obj(NoRef, map k | k in props :: Strip(props[k]))
    case _ => v
  }

  lemma StripSlots(v: Value)
    requires v.Obj?
    ensures Strip(v).Obj? && Strip(v).ref.NoRef? && Strip(v).props.Keys == v.props.Keys
    ensures forall k | k in v.props :: Strip(v).props[k] == Strip(v.props[k])
  {
  }

  lemma SameRecord(a: Value, b: Value)
    requires a.Obj? && b.Obj? && a.ref == b.ref && a.props.Keys == b.props.Keys
    requires forall k | k in a.props :: a.props[k] == b.props[k]
    ensures a == b
  {
    assert a.props == b.props;
  }
}
