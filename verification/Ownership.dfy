/**
 * The field-ownership boundary: which parts of an operation's output reach state. `Walk` is the recursive
 * sanitizer; the results give, leaf by leaf, exactly what an operation can and cannot change.
 */
module Ownership {
  import opened Options
  import opened Values
  import opened Patch
  import opened Schemas

  /** `Whole` is `true`: the subtree below; `Parts` names the owned keys. */
  datatype Own = Whole | Parts(fields: map<string, Own>)

  const UNSAFE_KEYS := {"__proto__", "constructor", "prototype"}

  datatype Reason = UnsafeKey | Undeclared | NotOwned | InvalidShape

  function OwnOf(own: Own, key: string): Option<Own> {
    match own
    case Whole => Some(Whole)
    case Parts(fields) => if key in fields then Some(fields[key]) else None
  }

  /** The keys the walk looks into: safe, declared, and owned at least in part. */
  predicate Admitted(s: Schema, own: Own, key: string)
    requires s.Node?
  {
    key !in UNSAFE_KEYS && key in s.props && OwnOf(own, key).Some?
  }

  /** The accepted value of a declared child, if any; `own` is the ownership of that child. */
  function WalkChild(s: Schema, own: Own, value: Value, at: Ref): Option<Value>
    decreases s, 1
  {
    if s.Node? then
      if IsRecord(value) then
        var nested := Walk(s, own, value, at);
        if nested == map[] then None else Some(Obj(at, nested))
      else Some(Default(s, at))
    else if own.Whole? then Some(CheckedOrDefault(s, value, at))
    else None
  }

  function Walk(s: Schema, own: Own, value: Value, at: Ref): map<string, Value>
    requires s.Node?
    decreases s, 0
  {
    map k | k in PropsOf(value) && Admitted(s, own, k)
            && WalkChild(s.props[k], OwnOf(own, k).value, PropsOf(value)[k], Child(at, k)).Some?
      :: WalkChild(s.props[k], OwnOf(own, k).value, PropsOf(value)[k], Child(at, k)).value
  }

  /** `resolveOperationPatch(...).acceptedPatch`; Undef when nothing was accepted. */
  function AcceptedPatch(s: Schema, own: Own, output: Value, at: Ref): Value
    requires s.Node?
  {
    if !IsRecord(output) then Undef
    else
      var accepted := Walk(s, own, output, at);
      if accepted == map[] then Undef else Obj(at, accepted)
  }

  lemma WalkSlots(s: Schema, own: Own, value: Value, at: Ref, k: string)
    requires s.Node?
    ensures k in Walk(s, own, value, at) <==>
      && k in PropsOf(value) && Admitted(s, own, k)
      && WalkChild(s.props[k], OwnOf(own, k).value, PropsOf(value)[k], Child(at, k)).Some?
    ensures k in Walk(s, own, value, at) ==>
      Some(Walk(s, own, value, at)[k])
      == WalkChild(s.props[k], OwnOf(own, k).value, PropsOf(value)[k], Child(at, k))
  {
  }

  /* ---- everything accepted conforms ---- */

  lemma {:induction false} WalkConforms(s: Schema, own: Own, value: Value, at: Ref)
    requires s.Node?
    ensures Conforms(s, Obj(at, Walk(s, own, value, at)), false)
    decreases s
  {
    var accepted := Walk(s, own, value, at);
    forall k | k in accepted ensures k in s.props && Conforms(s.props[k], accepted[k], false) {
      WalkSlots(s, own, value, at, k);
      var child, v, ref := s.props[k], PropsOf(value)[k], Child(at, k);
      DefaultConforms(child, ref);
      TotalIsPartial(child, Default(child, ref));
      CheckedConforms(child, v, ref);
      if child.Node? && IsRecord(v) { WalkConforms(child, OwnOf(own, k).value, v, ref); }
    }
    NodeConforms(s, Obj(at, accepted), false);
  }

  /** Any output whatever: what is accepted from it is a patch of the declared shape. */
  lemma AcceptedConforms(s: Schema, own: Own, output: Value, at: Ref)
    requires s.Node?
    ensures var patch := AcceptedPatch(s, own, output, at);
            patch.Undef? || Conforms(s, patch, false)
  {
    if IsRecord(output) { WalkConforms(s, own, output, at); }
  }

  /** So a commit of any operation's output keeps a state of the declared shape in it. */
  lemma OperationKeepsConforming(s: Schema, own: Own, output: Value, at: Ref, prev: Value, commitAt: Ref)
    requires s.Node? && Conforms(s, prev, true)
    ensures Conforms(s, PatchInto(prev, AcceptedPatch(s, own, output, at), commitAt), true)
  {
    AcceptedConforms(s, own, output, at);
    PatchKeepsConforming(s, prev, AcceptedPatch(s, own, output, at), commitAt, true);
  }

  /* ---- leaf by leaf ---- */

  /** `path` leads through plain-object nodes to a schema that is none: a field owned wholesale or not at all. */
  ghost predicate IsLeafPath(s: Schema, path: seq<string>)
    decreases |path|
  {
    if s.Node? then path != [] && path[0] in s.props && IsLeafPath(s.props[path[0]], path[1..]) else path == []
  }

  function SchemaAt(s: Schema, path: seq<string>): Schema
    requires IsLeafPath(s, path)
    decreases |path|
  {
    if s.Node? then SchemaAt(s.props[path[0]], path[1..]) else s
  }

  /** The operation owns the leaf: `true` is declared at it or above it. */
  predicate Owns(own: Own, path: seq<string>)
    decreases |path|
  {
    || own.Whole?
    || (path != [] && path[0] in own.fields && Owns(own.fields[path[0]], path[1..]))
  }

  predicate SafePath(path: seq<string>) {
    forall i | 0 <= i < |path| :: path[i] !in UNSAFE_KEYS
  }

  /**
   * Somewhere above the leaf the output offers, under a key the operation owns at least in part, something that
   * is no record where the schema has a nested object: the guard of the wrong-shape reset.
   */
  ghost predicate ResetAbove(s: Schema, own: Own, value: Value, path: seq<string>)
    decreases |path|
  {
    && s.Node? && path != []
    && path[0] in PropsOf(value) && Admitted(s, own, path[0])
    && s.props[path[0]].Node?
    && (!IsRecord(PropsOf(value)[path[0]])
        || ResetAbove(s.props[path[0]], OwnOf(own, path[0]).value, PropsOf(value)[path[0]], path[1..]))
  }

  function RefAt(at: Ref, path: seq<string>): Ref
    decreases |path|
  {
    if path == [] then at else RefAt(Child(at, path[0]), path[1..])
  }

  lemma {:induction false} DefaultAtLeaf(s: Schema, at: Ref, path: seq<string>)
    requires IsLeafPath(s, path)
    ensures Read(Default(s, at), path) == Found(Default(SchemaAt(s, path), RefAt(at, path)))
    decreases |path|
  {
    if s.Node? { DefaultAtLeaf(s.props[path[0]], Child(at, path[0]), path[1..]); }
  }

  /** What the accepted patch holds at a leaf. */
  ghost function Offered(s: Schema, own: Own, output: Value, at: Ref, path: seq<string>): Found
    requires IsLeafPath(s, path)
  {
    if ResetAbove(s, own, output, path) then Found(Default(SchemaAt(s, path), RefAt(at, path)))
    else if Owns(own, path) && SafePath(path) && Read(output, path).Found? then
      Found(CheckedOrDefault(SchemaAt(s, path), Read(output, path).value, RefAt(at, path)))
    else Missing
  }

  /**
   * A leaf is in the accepted patch exactly when a reset above it put its default there, or when the operation
   * owns it and the output has a value at that very path; then it holds the checked value.
   */
  lemma {:induction false} AcceptedAtLeaf(s: Schema, own: Own, value: Value, at: Ref, path: seq<string>)
    requires s.Node? && IsLeafPath(s, path) && IsRecord(value)
    ensures Read(Obj(at, Walk(s, own, value, at)), path) == Offered(s, own, value, at, path)
    decreases |path|
  {
    var k, rest := path[0], path[1..];
    var accepted := Walk(s, own, value, at);
    WalkSlots(s, own, value, at, k);
    assert Read(Obj(at, accepted), path) == if k in accepted then Read(accepted[k], rest) else Missing;
    assert SafePath(path) <==> k !in UNSAFE_KEYS && SafePath(rest) by {
      assert path == [k] + rest;
      assert forall i | 0 <= i < |rest| :: path[i + 1] == rest[i];
    }
    if k in PropsOf(value) && Admitted(s, own, k) {
      var child, kown, v := s.props[k], OwnOf(own, k).value, PropsOf(value)[k];
      assert Owns(own, path) <==> Owns(kown, rest);
      if child.Node? {
        if IsRecord(v) {
          AcceptedAtLeaf(child, kown, v, Child(at, k), rest);
          assert value.Obj? && Read(value, path) == Read(v, rest);
          assert Read(Obj(Child(at, k), map[]), rest) == Missing;
        } else {
          DefaultAtLeaf(child, Child(at, k), rest);
        }
      } else {
        assert rest == [] && (Owns(kown, rest) <==> kown.Whole?);
        assert value.Obj? && Read(value, path) == Read(v, rest) == Found(v);
        assert SchemaAt(s, path) == SchemaAt(child, rest) == child;
        assert RefAt(at, path) == RefAt(Child(at, k), rest) == Child(at, k);
        assert k in accepted ==> Read(accepted[k], rest) == Found(accepted[k]);
      }
    } else if k in PropsOf(value) && k !in UNSAFE_KEYS {
      assert !Owns(own, path);
    }
  }

  lemma OfferedPatch(s: Schema, own: Own, output: Value, at: Ref, path: seq<string>)
    requires s.Node? && IsLeafPath(s, path)
    ensures Read(AcceptedPatch(s, own, output, at), path) == Offered(s, own, output, at, path)
  {
    if IsRecord(output) {
      AcceptedAtLeaf(s, own, output, at, path);
      assert Read(Obj(at, map[]), path) == Missing;
    }
  }

  lemma {:induction false} ConformingHasLeaf(s: Schema, v: Value, path: seq<string>)
    requires Conforms(s, v, true) && IsLeafPath(s, path)
    ensures Read(v, path).Found?
    decreases |path|
  {
    if s.Node? { ConformingHasLeaf(s.props[path[0]], v.props[path[0]], path[1..]); }
  }

  /** Reading a patched tree at a path both sides have is patching what was read. */
  lemma {:induction false} PatchedAt(prev: Value, patch: Value, at: Ref, path: seq<string>)
    requires Read(prev, path).Found? && Read(patch, path).Found?
    ensures Read(PatchInto(prev, patch, at), path)
         == Found(PatchInto(Read(prev, path).value, Read(patch, path).value, RefAt(at, path)))
    decreases |path|
  {
    if path != [] {
      MergedSlots(prev, patch, at);
      PatchedAt(prev.props[path[0]], patch.props[path[0]], Child(at, path[0]), path[1..]);
    }
  }

  lemma {:induction false} UnofferedIsMissed(s: Schema, prev: Value, patch: Value, path: seq<string>)
    requires Conforms(s, prev, true) && IsLeafPath(s, path)
    requires patch.Undef? || Conforms(s, patch, false)
    requires !Read(patch, path).Found?
    ensures Misses(prev, patch, path)
    decreases |path|
  {
    if !patch.Undef? {
      var k := path[0];
      if k in patch.props { UnofferedIsMissed(s.props[k], prev.props[k], patch.props[k], path[1..]); }
    }
  }

  /**
   * The ownership frame, exactly. After an operation's output is committed onto a state of the declared shape, each
   * leaf is what it was with what was offered there patched in -- and with nothing offered, the very same object.
   * Nothing is offered where the operation does not own the leaf, unless a wrong-shape reset above it fires.
   */
  lemma LeafAfterOperation(
      s: Schema, own: Own, output: Value, at: Ref, prev: Value, commitAt: Ref, path: seq<string>)
    requires s.Node? && Conforms(s, prev, true) && IsLeafPath(s, path)
    ensures var next := PatchInto(prev, AcceptedPatch(s, own, output, at), commitAt);
            var offered := Offered(s, own, output, at, path);
            && Read(prev, path).Found?
            && Read(next, path) ==
                 (if offered.Found? then Found(PatchInto(Read(prev, path).value, offered.value, RefAt(commitAt, path)))
                  else Read(prev, path))
    ensures !Owns(own, path) && !ResetAbove(s, own, output, path) ==> Offered(s, own, output, at, path).Missing?
  {
    var patch := AcceptedPatch(s, own, output, at);
    ConformingHasLeaf(s, prev, path);
    OfferedPatch(s, own, output, at, path);
    if Offered(s, own, output, at, path).Found? {
      PatchedAt(prev, patch, commitAt, path);
    } else {
      AcceptedConforms(s, own, output, at);
      UnofferedIsMissed(s, prev, patch, path);
      UntouchedBranchesAreShared(prev, patch, commitAt, path);
    }
  }

  /** `path` leads through plain-object nodes to a declared key, whatever its schema. */
  ghost predicate IsBranchPath(s: Schema, path: seq<string>)
    decreases |path|
  {
    path != [] && s.Node? && path[0] in s.props && (|path| == 1 || IsBranchPath(s.props[path[0]], path[1..]))
  }

  /** The walk gets to the branch at `path`: it enters each key on the way, or resets an object on the way. */
  ghost predicate Reaches(s: Schema, own: Own, value: Value, path: seq<string>)
    decreases |path|
  {
    && s.Node? && path != []
    && path[0] in PropsOf(value) && Admitted(s, own, path[0])
    && (|path| == 1 || !IsRecord(PropsOf(value)[path[0]])
        || Reaches(s.props[path[0]], OwnOf(own, path[0]).value, PropsOf(value)[path[0]], path[1..]))
  }

  lemma {:induction false} UnreachedIsMissed(s: Schema, own: Own, value: Value, at: Ref, prev: Value, path: seq<string>)
    requires IsBranchPath(s, path) && Conforms(s, prev, true) && !Reaches(s, own, value, path)
    ensures Misses(prev, Obj(at, Walk(s, own, value, at)), path)
    decreases |path|
  {
    var k := path[0];
    WalkSlots(s, own, value, at, k);
    if k in Walk(s, own, value, at) {
      assert |path| > 1 && s.props[k].Node? && IsRecord(PropsOf(value)[k]);
      UnreachedIsMissed(
        s.props[k], OwnOf(own, k).value, PropsOf(value)[k], Child(at, k), prev.props[k], path[1..]);
    }
  }

  /**
   * The frame for whole branches: after an operation's output is committed onto a state of the declared shape, every
   * declared branch that the walk does not get to -- nothing offered and owned at, above or below it -- is the very
   * object it was.
   */
  lemma UnreachedBranchIsTheSameObject(
      s: Schema, own: Own, output: Value, at: Ref, prev: Value, commitAt: Ref, path: seq<string>)
    requires IsBranchPath(s, path) && Conforms(s, prev, true) && !Reaches(s, own, output, path)
    ensures Read(PatchInto(prev, AcceptedPatch(s, own, output, at), commitAt), path) == Read(prev, path)
  {
    if IsRecord(output) {
      UnreachedIsMissed(s, own, output, at, prev, path);
      UntouchedBranchesAreShared(prev, AcceptedPatch(s, own, output, at), commitAt, path);
    }
  }

  /**
   * Unless a record meets a record, an accepted value lands at its leaf exactly when it is not `undefined` (or
   * `undefined` was there already): an explicit `undefined`, and the reset of an optional field to its default,
   * leave the old value in place, whatever it is.
   */
  lemma OfferedLeafLands(s: Schema, own: Own, output: Value, at: Ref, prev: Value, commitAt: Ref, path: seq<string>)
    requires s.Node? && Conforms(s, prev, true) && IsLeafPath(s, path) && Read(prev, path).Found?
    requires Offered(s, own, output, at, path).Found?
    requires !(Read(prev, path).value.Obj? && IsRecord(Offered(s, own, output, at, path).value))
    ensures var a := Offered(s, own, output, at, path).value;
            var next := PatchInto(prev, AcceptedPatch(s, own, output, at), commitAt);
            Read(next, path) == Found(a) <==> !a.Undef? || Read(prev, path) == Found(Undef)
  {
    LeafAfterOperation(s, own, output, at, prev, commitAt, path);
  }

  /**
   * For any accepted value, a record too: afterwards the leaf has the contents that were offered exactly when the
   * offer overwrites the old value. A record leaves in place whatever keys it does not mention.
   */
  lemma OfferedContentsLand(
      s: Schema, own: Own, output: Value, at: Ref, prev: Value, commitAt: Ref, path: seq<string>)
    requires s.Node? && Conforms(s, prev, true) && IsLeafPath(s, path)
    requires Offered(s, own, output, at, path).Found? && Read(prev, path).Found?
    ensures var a := Offered(s, own, output, at, path).value;
            var next := PatchInto(prev, AcceptedPatch(s, own, output, at), commitAt);
            && Read(next, path).Found?
            && (Strip(Read(next, path).value) == Strip(a) <==> Overwrites(Read(prev, path).value, a))
  {
    LeafAfterOperation(s, own, output, at, prev, commitAt, path);
    var was, a := Read(prev, path).value, Offered(s, own, output, at, path).value;
    PatchIntoRefinesMerge(was, a, RefAt(commitAt, path));
    ContentsReplacedIffOverwritten(was, a);
  }

  /** The state, and an output offering `value`, of a capability with the one field "f". */
  ghost function OneField(value: Value): Value {
    Obj(NoRef, map["f" := value])
  }

  /** What an operation that owns everything makes of the field `was` when it offers `value`. */
  ghost function AfterOffer(s: Schema, was: Value, value: Value): Found {
    var schema := Node(map["f" := s]);
    Read(PatchInto(OneField(was), AcceptedPatch(schema, Whole, OneField(value), NoRef), NoRef), ["f"])
  }

  lemma OfferedToOneField(s: Schema, was: Value, value: Value)
    requires !s.Node? && Conforms(s, was, true) && CheckValue(s, value, NoRef).Some?
    ensures Conforms(Node(map["f" := s]), OneField(was), true)
    ensures AfterOffer(s, was, value) == Found(PatchInto(was, CheckValue(s, value, NoRef).value, NoRef))
  {
    var schema := Node(map["f" := s]);
    NodeConforms(schema, OneField(was), true);
    assert ["f"][1..] == [];
    assert |"f"| == 1 && |"__proto__"| == 9 && |"constructor"| == 11 && |"prototype"| == 9;
    assert Read(OneField(value), ["f"]) == Read(value, []) && Read(OneField(was), ["f"]) == Read(was, []);
    assert SchemaAt(schema, ["f"]) == SchemaAt(s, []);
    LeafAfterOperation(schema, Whole, OneField(value), NoRef, OneField(was), NoRef, ["f"]);
  }

  /** A field whose default is `null` and that holds a plain object is not changed by a Date, which is accepted. */
  lemma DateIsNotSet(date: Value)
    requires date.Builtin?
    ensures CheckValue(Leaf(Null), date, NoRef) == Some(date)
    ensures AfterOffer(Leaf(Null), Obj(NoRef, map[]), date) == Found(Obj(NoRef, map[]))
  {
    OfferedToOneField(Leaf(Null), Obj(NoRef, map[]), date);
    var r := PatchInto(Obj(NoRef, map[]), date, NoRef);
    MergedSlots(Obj(NoRef, map[]), date, NoRef);
    assert r.props == map[];
  }

  /** A nullable object offered without a key it has is accepted as it is, and keeps the key and its value. */
  lemma UnmentionedKeyStays(kept: string)
    ensures var s := Marker(Nullable, Node(map["a" := Leaf(Str(""))]));
            var was, without := Obj(NoRef, map["a" := Str(kept)]), Obj(NoRef, map[]);
            CheckValue(s, without, NoRef) == Some(without) && AfterOffer(s, was, without) == Found(was)
  {
    var node := Node(map["a" := Leaf(Str(""))]);
    var was, without := Obj(NoRef, map["a" := Str(kept)]), Obj(NoRef, map[]);
    NodeConforms(node, was, false);
    CheckedSlots(node, without, NoRef);
    SameRecord(CheckValue(node, without, NoRef).value, without);
    OfferedToOneField(Marker(Nullable, node), was, without);
    MergedSlots(was, without, NoRef);
    assert PatchInto(was, without, NoRef).props == was.props;
  }

  /** A mutator that owns everything cannot clear an optional field it once set. */
  lemma OptionalFieldIsNotCleared(kept: string)
    ensures var s := Marker(Optional, Leaf(Str("")));
            CheckValue(s, Undef, NoRef) == Some(Undef) && AfterOffer(s, Str(kept), Undef) == Found(Str(kept))
  {
    OfferedToOneField(Marker(Optional, Leaf(Str(""))), Str(kept), Undef);
  }

  /** An operation that owns `user.email` alone resets `user.name` by returning a non-object as `user`. */
  lemma ResetReachesUnownedField()
    ensures var user := Node(map["email" := Leaf(Str("")), "name" := Leaf(Str(""))]);
            var s := Node(map["user" := user]);
            var own := Parts(map["user" := Parts(map["email" := Whole])]);
            var prev := Obj(NoRef, map["user" := Obj(NoRef, map["email" := Str("e"), "name" := Str("n")])]);
            var output := Obj(NoRef, map["user" := Null]);
            && Conforms(s, prev, true) && !Owns(own, ["user", "name"])
            && Read(prev, ["user", "name"]) == Found(Str("n"))
            && Read(PatchInto(prev, AcceptedPatch(s, own, output, NoRef), NoRef), ["user", "name"]) == Found(Str(""))
  {
    var user := Node(map["email" := Leaf(Str("")), "name" := Leaf(Str(""))]);
    var s := Node(map["user" := user]);
    var own := Parts(map["user" := Parts(map["email" := Whole])]);
    var prevUser := Obj(NoRef, map["email" := Str("e"), "name" := Str("n")]);
    var prev := Obj(NoRef, map["user" := prevUser]);
    var output := Obj(NoRef, map["user" := Null]);
    var path := ["user", "name"];
    assert path[1..] == ["name"] && ["name"][1..] == [];
    assert |"user"| == 4 && |"__proto__"| == 9 && |"constructor"| == 11 && |"prototype"| == 9;
    assert "name" != "email" by { assert |"name"| == 4 && |"email"| == 5; }
    NodeConforms(user, prevUser, true);
    NodeConforms(s, prev, true);
    assert Read(prevUser, ["name"]) == Read(Str("n"), []);
    assert !Owns(Parts(map["email" := Whole]), ["name"]);
    assert IsLeafPath(user, ["name"]) && SchemaAt(user, ["name"]) == SchemaAt(Leaf(Str("")), []);
    assert SchemaAt(s, path) == SchemaAt(user, ["name"]);
    assert ResetAbove(s, own, output, path);
    LeafAfterOperation(s, own, output, NoRef, prev, NoRef, path);
  }

  /** A value of a leaf's shape that is not its default. */
  function Another(s: Schema, at: Ref): Value {
    match s
    case Leaf(d) =>
      (match d
       case Undef => Undef
       case Null => Obj(NoRef, map[])
       case Boolean(b) => Boolean(!b)
       case Number(text) => Number(text + "0")
       case NaN => Number("0")
       case Str(text) => Str(text + "x")
       case BigInt(i) => BigInt(i + 1)
       case Symbol(n) => Symbol(n + 1)
       case Function(n) => Function(n + 1)
       case _ => Null)
    case Fixed(kind, ref) => Builtin(kind, if ref.NoRef? then Ref(0, []) else NoRef)
    case List(items) => Arr(at, Default(s, at).items + [Undef])
    case Node(_) => Default(s, at)
    case Marker(kind, inner) => if Default(inner, at) != Default(s, at) then Default(inner, at) else Another(inner, at)
  }

  lemma {:induction false} AnotherDiffers(s: Schema, at: Ref)
    requires !s.Node? && !Default(s, at).Undef?
    ensures Conforms(s, Another(s, at), true) && Another(s, at) != Default(s, at)
    ensures forall ref: Ref :: PatchInto(Another(s, at), Default(s, at), ref) == Default(s, at)
    decreases s
  {
    match s
    case Leaf(d) =>
      if d.Number? { assert |d.text + "0"| == |d.text| + 1; }
      if d.Str? { assert |d.s + "x"| == |d.s| + 1; }
    case List(items) => assert |Another(s, at).items| == |items| + 1;
    case Marker(_, inner) =>
      if Default(inner, at) != Default(s, at) {
        DefaultConforms(inner, at);
        TotalIsPartial(inner, Default(inner, at));
      } else {
        AnotherDiffers(inner, at);
        TotalIsPartial(inner, Another(inner, at));
      }
    case Fixed(_, _) =>
  }

  /**
   * A leaf the operation does not own is safe in every state of the declared shape exactly when the guard of the
   * reset does not fire above it, or its default is `undefined`, which a patch never writes.
   */
  lemma UnownedUntouchedIffNoReset(s: Schema, own: Own, output: Value, at: Ref, commitAt: Ref, path: seq<string>)
    requires s.Node? && IsLeafPath(s, path) && !Owns(own, path)
    ensures (ResetAbove(s, own, output, path) ==> Default(SchemaAt(s, path), RefAt(at, path)).Undef?) <==>
      forall prev: Value | Conforms(s, prev, true) ::
        Read(PatchInto(prev, AcceptedPatch(s, own, output, at), commitAt), path) == Read(prev, path)
  {
    var patch, leaf := AcceptedPatch(s, own, output, at), SchemaAt(s, path);
    var d := Default(leaf, RefAt(at, path));
    if ResetAbove(s, own, output, path) ==> d.Undef? {
      forall prev: Value | Conforms(s, prev, true)
        ensures Read(PatchInto(prev, patch, commitAt), path) == Read(prev, path)
      {
        LeafAfterOperation(s, own, output, at, prev, commitAt, path);
      }
    } else {
      LeafSchemaIsNoNode(s, path);
      AnotherDiffers(leaf, RefAt(at, path));
      var prev := WithLeaf(Default(s, at), path, Another(leaf, RefAt(at, path)));
      LeafReplaced(s, path, at, Another(leaf, RefAt(at, path)));
      LeafAfterOperation(s, own, output, at, prev, commitAt, path);
      assert Read(PatchInto(prev, patch, commitAt), path) != Read(prev, path);
    }
  }

  lemma {:induction false} LeafSchemaIsNoNode(s: Schema, path: seq<string>)
    requires IsLeafPath(s, path)
    ensures !SchemaAt(s, path).Node?
    decreases |path|
  {
    if s.Node? { LeafSchemaIsNoNode(s.props[path[0]], path[1..]); }
  }

  /** `v` with the leaf at `path` replaced. */
  function WithLeaf(v: Value, path: seq<string>, leaf: Value): Value
    decreases |path|
  {
    if path == [] then leaf
    else if v.Obj? && path[0] in v.props then
      Obj(v.ref, v.props[path[0] := WithLeaf(v.props[path[0]], path[1..], leaf)])
    else v
  }

  lemma {:induction false} LeafReplaced(s: Schema, path: seq<string>, at: Ref, leaf: Value)
    requires IsLeafPath(s, path) && Conforms(SchemaAt(s, path), leaf, true)
    ensures Conforms(s, WithLeaf(Default(s, at), path, leaf), true)
    ensures Read(WithLeaf(Default(s, at), path, leaf), path) == Found(leaf)
    decreases |path|
  {
    DefaultConforms(s, at);
    if s.Node? {
      var k := path[0];
      LeafReplaced(s.props[k], path[1..], Child(at, k), leaf);
      NodeConforms(s, WithLeaf(Default(s, at), path, leaf), true);
    }
  }

  /* ---- noninterference ---- */

  /** The outputs have the same owned leaves and the same shapes above them; unowned parts may differ freely. */
  ghost predicate AgreeOnOwned(s: Schema, own: Own, a: Value, b: Value)
    requires s.Node?
    decreases s
  {
    forall k | Admitted(s, own, k) ::
      && (k in PropsOf(a) <==> k in PropsOf(b))
      && (k in PropsOf(a) && k in PropsOf(b) ==>
        var va, vb, kown := PropsOf(a)[k], PropsOf(b)[k], OwnOf(own, k).value;
        if s.props[k].Node? then
          (IsRecord(va) <==> IsRecord(vb)) && (IsRecord(va) ==> AgreeOnOwned(s.props[k], kown, va, vb))
        else kown.Whole? ==> va == vb)
  }

  lemma {:induction false} AgreeingWalks(s: Schema, own: Own, a: Value, b: Value, at: Ref)
    requires s.Node? && AgreeOnOwned(s, own, a, b)
    ensures Walk(s, own, a, at) == Walk(s, own, b, at)
    decreases s, 1
  {
    var wa, wb := Walk(s, own, a, at), Walk(s, own, b, at);
    forall k ensures (k in wa <==> k in wb) && (k in wa ==> wa[k] == wb[k]) {
      WalkSlots(s, own, a, at, k);
      WalkSlots(s, own, b, at, k);
      if Admitted(s, own, k) && k in PropsOf(a) {
        AgreeingChildren(s, own, a, b, at, k);
      }
    }
    assert wa == wb;
  }

  lemma {:induction false} AgreeingChildren(s: Schema, own: Own, a: Value, b: Value, at: Ref, k: string)
    requires s.Node? && AgreeOnOwned(s, own, a, b) && Admitted(s, own, k) && k in PropsOf(a)
    ensures k in PropsOf(b)
    ensures WalkChild(s.props[k], OwnOf(own, k).value, PropsOf(a)[k], Child(at, k))
         == WalkChild(s.props[k], OwnOf(own, k).value, PropsOf(b)[k], Child(at, k))
    decreases s, 0
  {
    var child, kown, va, vb := s.props[k], OwnOf(own, k).value, PropsOf(a)[k], PropsOf(b)[k];
    if child.Node? && IsRecord(va) {
      AgreeingWalks(child, kown, va, vb, Child(at, k));
    }
  }

  /** Outputs that agree where the operation owns are indistinguishable to state. */
  lemma UnownedOutputDoesNotMatter(s: Schema, own: Own, a: Value, b: Value, at: Ref)
    requires s.Node? && IsRecord(a) && IsRecord(b) && AgreeOnOwned(s, own, a, b)
    ensures AcceptedPatch(s, own, a, at) == AcceptedPatch(s, own, b, at)
  {
    AgreeingWalks(s, own, a, b, at);
  }

  /* ---- references do not influence contents ---- */

  lemma {:induction false} ChildContents(s: Schema, own: Own, value: Value, at: Ref, other: Ref)
    ensures WalkChild(s, own, value, at).Some? <==> WalkChild(s, own, value, other).Some?
    ensures WalkChild(s, own, value, at).Some? ==>
      Strip(WalkChild(s, own, value, at).value) == Strip(WalkChild(s, own, value, other).value)
    decreases s, 1
  {
    if s.Node? && IsRecord(value) {
      WalkContents(s, own, value, at, other);
    } else {
      DefaultContents(s, at, other);
      CheckedOrDefaultContents(s, value, at, other);
    }
  }

  lemma {:induction false} WalkContents(s: Schema, own: Own, value: Value, at: Ref, other: Ref)
    requires s.Node?
    ensures Walk(s, own, value, at) == map[] <==> Walk(s, own, value, other) == map[]
    ensures Strip(Obj(at, Walk(s, own, value, at))) == Strip(Obj(other, Walk(s, own, value, other)))
    decreases s, 0
  {
    var a, b := Walk(s, own, value, at), Walk(s, own, value, other);
    forall k ensures (k in a <==> k in b) && (k in a ==> Strip(a[k]) == Strip(b[k])) {
      WalkSlots(s, own, value, at, k);
      WalkSlots(s, own, value, other, k);
      if k in PropsOf(value) && Admitted(s, own, k) {
        ChildContents(s.props[k], OwnOf(own, k).value, PropsOf(value)[k], Child(at, k), Child(other, k));
      }
    }
    assert a.Keys == b.Keys;
    assert a == map[] <==> a.Keys == {};
    assert b == map[] <==> b.Keys == {};
    StripSlots(Obj(at, a));
    StripSlots(Obj(other, b));
    SameRecord(Strip(Obj(at, a)), Strip(Obj(other, b)));
  }

  lemma AcceptedContents(s: Schema, own: Own, output: Value, at: Ref, other: Ref)
    requires s.Node?
    ensures Strip(AcceptedPatch(s, own, output, at)) == Strip(AcceptedPatch(s, own, output, other))
  {
    if IsRecord(output) { WalkContents(s, own, output, at, other); }
  }

  /* ---- the walk with its shared error map ---- */

  /** Why the value at `path` below `value` was dropped or reset, if it was. */
  function ErrorAt(s: Schema, own: Own, value: Value, path: seq<string>): Option<Reason>
    decreases |path|
  {
    if !s.Node? || path == [] || path[0] !in PropsOf(value) then None
    else
      var k, v, here := path[0], PropsOf(value)[path[0]], |path| == 1;
      if k in UNSAFE_KEYS then (if here then Some(UnsafeKey) else None)
      else if k !in s.props then (if here then Some(Undeclared) else None)
      else if OwnOf(own, k).None? then (if here then Some(NotOwned) else None)
      else if s.props[k].Node? then
        if IsRecord(v) then ErrorAt(s.props[k], OwnOf(own, k).value, v, path[1..])
        else if here then Some(InvalidShape)
        else None
      else if !here then None
      else if !OwnOf(own, k).value.Whole? then Some(NotOwned)
      else if CheckValue(s.props[k], v, NoRef).None? then Some(InvalidShape)
      else None
  }

  /** The operation owns something at, above or below the path. */
  predicate OwnsPart(own: Own, path: seq<string>)
    decreases |path|
  {
    own.Whole? || path == [] || (path[0] in own.fields && OwnsPart(own.fields[path[0]], path[1..]))
  }

  function DeclaredAt(s: Schema, path: seq<string>): Schema
    requires IsBranchPath(s, path)
    decreases |path|
  {
    if |path| == 1 then s.props[path[0]] else DeclaredAt(s.props[path[0]], path[1..])
  }

  /** The walk goes into a record at the path: a declared object, under safe keys, owned at least in part. */
  ghost predicate Entered(s: Schema, own: Own, path: seq<string>) {
    SafePath(path) && OwnsPart(own, path) && (path == [] || (IsBranchPath(s, path) && DeclaredAt(s, path).Node?))
  }

  ghost predicate Granted(s: Schema, own: Own, path: seq<string>)
    requires IsBranchPath(s, path)
  {
    if DeclaredAt(s, path).Node? then OwnsPart(own, path) else Owns(own, path)
  }

  ghost predicate ShapeFits(s: Schema, v: Value) {
    if s.Node? then IsRecord(v) else CheckValue(s, v, NoRef).Some?
  }

  /**
   * Which error a path carries, from the whole path: none unless the output has a value there and the walk goes into
   * the record that holds it. Then its key is unsafe, or undeclared, or not owned, or its shape wrong, in this order.
   */
  lemma {:induction false} ErrorMeaning(s: Schema, own: Own, value: Value, path: seq<string>)
    requires s.Node? && path != []
    ensures var found := Read(value, path);
            ErrorAt(s, own, value, path)
            == if found.Missing? || !Entered(s, own, path[..|path| - 1]) then None
               else if path[|path| - 1] in UNSAFE_KEYS then Some(UnsafeKey)
               else if !IsBranchPath(s, path) then Some(Undeclared)
               else if !Granted(s, own, path) then Some(NotOwned)
               else if !ShapeFits(DeclaredAt(s, path), found.value) then Some(InvalidShape)
               else None
    decreases |path|
  {
    var k, rest, above := path[0], path[1..], path[..|path| - 1];
    if |path| > 1 {
      assert above[0] == k && above[1..] == rest[..|rest| - 1];
      assert SafePath(above) <==> k !in UNSAFE_KEYS && SafePath(above[1..]);
      if k in PropsOf(value) && k in s.props && s.props[k].Node? && OwnOf(own, k).Some? {
        var child, kown, v := s.props[k], OwnOf(own, k).value, PropsOf(value)[k];
        ErrorMeaning(child, kown, v, rest);
      } else {
        assert IsBranchPath(s, above) && |above| > 1 ==> IsBranchPath(s.props[k], above[1..]);
      }
    } else {
      assert OwnsPart(own, path) <==> OwnOf(own, k).Some?;
      assert Owns(own, path) <==> OwnOf(own, k).Some? && OwnOf(own, k).value.Whole?;
    }
  }

  /** No owned leaf has lost its value, and no unowned one is passed over, in silence: there is an error above it. */
  lemma {:induction false} LeafIsBlamedIff(s: Schema, own: Own, value: Value, path: seq<string>)
    requires s.Node? && IsLeafPath(s, path) && Read(value, path).Found?
    ensures (exists n | 0 < n <= |path| :: ErrorAt(s, own, value, path[..n]).Some?)
       <==> !(Owns(own, path) && SafePath(path) && CheckValue(SchemaAt(s, path), Read(value, path).value, NoRef).Some?)
    ensures SafePath(path) && !Owns(own, path) ==>
      exists n | 0 < n <= |path| :: ErrorAt(s, own, value, path[..n]) == Some(NotOwned)
    decreases |path|
  {
    var k, rest := path[0], path[1..];
    assert path[..1] == [k];
    assert SafePath(path) <==> k !in UNSAFE_KEYS && SafePath(rest);
    var child, v := s.props[k], PropsOf(value)[k];
    forall n | 1 < n <= |path| ensures path[..n] == [k] + rest[..n - 1] {}
    if Admitted(s, own, k) && child.Node? {
      LeafIsBlamedIff(child, OwnOf(own, k).value, v, rest);
      forall n | 0 < n <= |rest|
        ensures ErrorAt(s, own, value, path[..n + 1]) == ErrorAt(child, OwnOf(own, k).value, v, rest[..n])
      {
        assert path[..n + 1][1..] == rest[..n];
      }
    } else {
    }
  }

  /**
   * An owned leaf carries no error exactly when the check accepts the offered value -- which it may do after
   * resetting parts of a nested object, without recording them: see `AcceptedAsOfferedIffConforms`.
   */
  lemma {:induction false} LeafErrorMeaning(s: Schema, own: Own, value: Value, at: Ref, path: seq<string>)
    requires s.Node? && IsLeafPath(s, path) && Read(value, path).Found?
    requires Owns(own, path) && SafePath(path)
    ensures ErrorAt(s, own, value, path)
         == if CheckValue(SchemaAt(s, path), Read(value, path).value, RefAt(at, path)).Some? then None
            else Some(InvalidShape)
    decreases |path|
  {
    var k, rest := path[0], path[1..];
    var child, v := s.props[k], PropsOf(value)[k];
    assert path == [k] + rest;
    assert forall i | 0 <= i < |rest| :: path[i + 1] == rest[i];
    assert Read(value, path) == Read(v, rest);
    if child.Node? {
      assert rest != [] && v.Obj?;
      LeafErrorMeaning(child, OwnOf(own, k).value, v, Child(at, k), rest);
    } else {
      assert rest == [];
      assert SchemaAt(s, path) == SchemaAt(child, rest) == child;
      CheckContents(child, v, NoRef, RefAt(at, path));
    }
  }

  lemma {:induction false} ConformsByContents(s: Schema, a: Value, b: Value, total: bool)
    requires Strip(a) == Strip(b)
    ensures Conforms(s, a, total) <==> Conforms(s, b, total)
    decreases s
  {
    match s
    case Node(props) =>
      if a.Obj? && b.Obj? {
        StripSlots(a);
        StripSlots(b);
        forall k | k in props && k in a.props
          ensures Conforms(props[k], a.props[k], total) <==> Conforms(props[k], b.props[k], total)
        {
          assert Strip(a).props[k] == Strip(a.props[k]) && Strip(b).props[k] == Strip(b.props[k]);
          ConformsByContents(props[k], a.props[k], b.props[k], total);
        }
      }
    case Marker(_, inner) => ConformsByContents(inner, a, b, false);
    case _ =>
  }

  /** What is accepted for a leaf has the contents that were offered exactly when the offered value conforms. */
  lemma AcceptedAsOfferedIffConforms(s: Schema, value: Value, at: Ref)
    ensures Strip(CheckedOrDefault(s, value, at)) == Strip(value) <==> Conforms(s, value, false)
  {
    if Conforms(s, value, false) {
      ConformingPassesUnchanged(s, value, at);
    } else if Strip(CheckedOrDefault(s, value, at)) == Strip(value) {
      CheckedConforms(s, value, at);
      DefaultConforms(s, at);
      TotalIsPartial(s, Default(s, at));
      ConformsByContents(s, CheckedOrDefault(s, value, at), value, false);
    }
  }

  /** A nullable object with a text where a number belongs is accepted with the number reset, and no error. */
  lemma ResetBelowMarkerIsNotRecorded(text: string)
    ensures var s := Node(map["f" := Marker(Nullable, Node(map["a" := Leaf(Number("0"))]))]);
            var output := OneField(Obj(NoRef, map["a" := Str(text)]));
            && ErrorAt(s, Whole, output, ["f"]).None?
            && Offered(s, Whole, output, NoRef, ["f"]) == Found(Obj(NoRef, map["a" := Number("0")]))
  {
    var leaf := Marker(Nullable, Node(map["a" := Leaf(Number("0"))]));
    var s, value := Node(map["f" := leaf]), Obj(NoRef, map["a" := Str(text)]);
    assert ["f"][1..] == [] && Read(OneField(value), ["f"]) == Read(value, []);
    assert |"f"| == 1 && |"__proto__"| == 9 && |"constructor"| == 11 && |"prototype"| == 9;
    assert SchemaAt(s, ["f"]) == SchemaAt(leaf, []);
    CheckedSlots(leaf.inner, value, NoRef);
    SameRecord(CheckValue(leaf, value, NoRef).value, Obj(NoRef, map["a" := Number("0")]));
    LeafErrorMeaning(s, Whole, OneField(value), NoRef, ["f"]);
  }

  const DOT := '.'

  /** `path.join(".")` */
  function Dotted(path: seq<string>): string {
    if path == [] then "" else if |path| == 1 then path[0] else path[0] + [DOT] + Dotted(path[1..])
  }

  /** Keys without dots are read back from the text, so that different paths have different texts. */
  lemma {:induction false} DottedApart(p: seq<string>, q: seq<string>)
    requires p != [] && q != [] && Dotted(p) == Dotted(q)
    requires (forall i | 0 <= i < |p| :: DOT !in p[i]) && forall i | 0 <= i < |q| :: DOT !in q[i]
    ensures p == q
    decreases |p|
  {
    var a, b := p[0], q[0];
    UpToDot(a, Dotted(p)[|a|..], b, Dotted(q)[|b|..]) by {
      assert a + Dotted(p)[|a|..] == Dotted(p) && b + Dotted(q)[|b|..] == Dotted(q);
      assert |p| > 1 ==> Dotted(p)[|a|..] == [DOT] + Dotted(p[1..]);
      assert |q| > 1 ==> Dotted(q)[|b|..] == [DOT] + Dotted(q[1..]);
    }
    if |p| > 1 && |q| > 1 {
      assert Dotted(p)[|a| + 1..] == Dotted(p[1..]) && Dotted(q)[|b| + 1..] == Dotted(q[1..]);
      DottedApart(p[1..], q[1..]);
    }
    assert p == [a] + p[1..] && q == [b] + q[1..];
  }

  /** A key with a dot in it and a nested key have one text. */
  lemma DottedTextsCollide(a: string, b: string)
    ensures Dotted([a + [DOT] + b]) == Dotted([a, b]) && [a + [DOT] + b] != [a, b]
  {
    assert [a, b][1..] == [b];
  }

  /** No other path has the text of `p`. */
  ghost predicate NamedByText(p: seq<string>) {
    forall q: seq<string> | q != [] && Dotted(q) == Dotted(p) :: q == p
  }

  /** A text names one path only exactly when there is no dot in it. */
  lemma TextNamesOnePathIff(p: seq<string>)
    requires p != []
    ensures NamedByText(p) <==> DOT !in Dotted(p)
  {
    if DOT !in Dotted(p) {
      forall q: seq<string> | q != [] && Dotted(q) == Dotted(p) ensures q == p {
        DottedHasDot(p);
        DottedHasDot(q);
        assert p == [p[0]] && q == [q[0]];
      }
    } else if |p| > 1 {
      OtherPath([Dotted(p)], p);
    } else {
      var i :| 0 <= i < |p[0]| && p[0][i] == DOT;
      var a, b := p[0][..i], p[0][i + 1..];
      assert p[0] == a + [DOT] + b && p == [p[0]];
      DottedTextsCollide(a, b);
      OtherPath([a, b], p);
    }
  }

  lemma OtherPath(q: seq<string>, p: seq<string>)
    requires q != [] && q != p && Dotted(q) == Dotted(p)
    ensures !NamedByText(p)
  {
  }

  lemma DottedHasDot(p: seq<string>)
    requires p != []
    ensures |p| > 1 ==> DOT in Dotted(p)
  {
    if |p| > 1 { assert Dotted(p)[|p[0]|] == DOT; }
  }

  lemma {:induction false} UpToDot(a: string, restA: string, b: string, restB: string)
    requires DOT !in a && DOT !in b && a + restA == b + restB
    requires (restA == [] || restA[0] == DOT) && (restB == [] || restB[0] == DOT)
    ensures a == b && restA == restB
  {
    var whole := a + restA;
    assert a != [] ==> whole[0] == a[0] && whole[0] in a;
    assert b != [] ==> whole[0] == (b + restB)[0] == b[0] && whole[0] in b;
    assert a == [] ==> whole == restA;
    assert b == [] ==> whole == restB;
    if a != [] && b != [] {
      assert whole[1..] == a[1..] + restA && (b + restB)[1..] == b[1..] + restB;
      UpToDot(a[1..], restA, b[1..], restB);
    }
  }

  /**
   * The errors of one walk, under the dotted texts of their paths; of paths with one text the last to be recorded
   * stays. `byPath` tells them apart.
   */
  class FieldErrors {
    var entries: map<string, Reason>
    ghost var byPath: map<seq<string>, Reason>

    ghost predicate Valid()
      reads this
    {
      && (forall q | q in byPath :: Dotted(q) in entries)
      && (forall d | d in entries :: exists q | q in byPath :: Dotted(q) == d && byPath[q] == entries[d])
    }

    constructor ()
      ensures Valid() && entries == map[] && byPath == map[]
    {
      entries, byPath := map[], map[];
    }

    method Record(path: seq<string>, reason: Reason)
      requires Valid()
      modifies this
      ensures Valid() && byPath == old(byPath)[path := reason]
      ensures entries == old(entries)[Dotted(path) := reason]
    {
      entries := entries[Dotted(path) := reason];
      byPath := byPath[path := reason];
      assert path in byPath;
      forall d | d in entries ensures exists q | q in byPath :: Dotted(q) == d && byPath[q] == entries[d] {
        if d != Dotted(path) {
          var q :| q in old(byPath) && Dotted(q) == d && old(byPath)[q] == old(entries)[d];
          assert q in byPath && byPath[q] == entries[d];
        }
      }
    }
  }

  function Lookup(entries: map<seq<string>, Reason>, q: seq<string>): Option<Reason> {
    if q in entries then Some(entries[q]) else None
  }

  /** `q` lies under `path`, below one of `keys`. */
  ghost predicate UnderKeys(q: seq<string>, path: seq<string>, keys: set<string>) {
    |q| > |path| && q[..|path|] == path && q[|path|] in keys
  }

  /** `entries` is `before` with the errors of the given keys of `value` added. */
  ghost predicate Extended(
      entries: map<seq<string>, Reason>, before: map<seq<string>, Reason>,
      s: Schema, own: Own, value: Value, path: seq<string>, keys: set<string>)
  {
    forall q {:trigger Lookup(entries, q)} :: Lookup(entries, q) ==
      if UnderKeys(q, path, keys) && ErrorAt(s, own, value, q[|path|..]).Some?
      then ErrorAt(s, own, value, q[|path|..]) else Lookup(before, q)
  }

  method WalkLoop(s: Schema, own: Own, value: Value, at: Ref, path: seq<string>, errors: FieldErrors)
    returns (result: map<string, Value>, hasAny: bool)
    requires s.Node? && errors.Valid()
    modifies errors
    ensures errors.Valid()
    ensures result == Walk(s, own, value, at)
    ensures hasAny <==> result != map[]
    ensures Extended(errors.byPath, old(errors.byPath), s, own, value, path, PropsOf(value).Keys)
    decreases s, 1
  {
    result, hasAny := map[], false;
    var values := PropsOf(value);
    var todo := values.Keys;
    ghost var walked := Walk(s, own, value, at);
    while todo != {}
      invariant todo <= values.Keys
      invariant Collected(result, walked, todo) && (hasAny <==> result != map[])
      invariant errors.Valid()
      invariant Extended(errors.byPath, old(errors.byPath), s, own, value, path, values.Keys - todo)
    {
      var key :| key in todo;
      ghost var done, before := values.Keys - todo, errors.byPath;
      WalkSlots(s, own, value, at, key);
      var child := WalkKey(s, own, value, at, path, key, errors);
      ExtendedBy(errors.byPath, before, old(errors.byPath), s, own, value, path, done, key);
      CollectedMore(result, walked, todo, key, child);
      todo := todo - {key};
      assert values.Keys - todo == done + {key};
      if child.Some? {
        result := result[key := child.value];
        hasAny := true;
        assert key in result;
      }
    }
    assert result == walked;
  }

  /** `result` is `walked` without the keys still to do. */
  ghost predicate Collected(result: map<string, Value>, walked: map<string, Value>, todo: set<string>) {
    && (forall k :: k in result <==> k in walked && k !in todo)
    && forall k | k in result :: result[k] == walked[k]
  }

  lemma CollectedMore(
      result: map<string, Value>, walked: map<string, Value>, todo: set<string>, key: string, child: Option<Value>)
    requires Collected(result, walked, todo) && key in todo
    requires child == if key in walked then Some(walked[key]) else None
    ensures Collected(if child.Some? then result[key := child.value] else result, walked, todo - {key})
  {
  }

  lemma ExtendedBy(
      entries: map<seq<string>, Reason>, middle: map<seq<string>, Reason>, before: map<seq<string>, Reason>,
      s: Schema, own: Own, value: Value, path: seq<string>, done: set<string>, key: string)
    requires Extended(middle, before, s, own, value, path, done)
    requires Extended(entries, middle, s, own, value, path, {key})
    ensures Extended(entries, before, s, own, value, path, done + {key})
  {
    forall q ensures Lookup(entries, q) ==
      (if UnderKeys(q, path, done + {key}) && ErrorAt(s, own, value, q[|path|..]).Some?
       then ErrorAt(s, own, value, q[|path|..]) else Lookup(before, q))
    {
      assert Lookup(middle, q) == Lookup(middle, q);
    }
  }

  /** One key of the loop: the accepted child, if any, and the error it records, if any. */
  method WalkKey(s: Schema, own: Own, value: Value, at: Ref, path: seq<string>, key: string, errors: FieldErrors)
    returns (accepted: Option<Value>)
    requires s.Node? && key in PropsOf(value) && errors.Valid()
    modifies errors
    ensures errors.Valid()
    ensures accepted ==
              if Admitted(s, own, key)
              then WalkChild(s.props[key], OwnOf(own, key).value, PropsOf(value)[key], Child(at, key)) else None
    ensures Extended(errors.byPath, old(errors.byPath), s, own, value, path, {key})
    decreases s, 0
  {
    var keyPath, v := path + [key], PropsOf(value)[key];
    accepted := None;
    var reason := None;
    if key in UNSAFE_KEYS {
      reason := Some(UnsafeKey);
    } else if key !in s.props {
      reason := Some(Undeclared);
    } else if OwnOf(own, key).None? {
      reason := Some(NotOwned);
    } else if s.props[key].Node? && IsRecord(v) {
      var nested, hasAny := WalkLoop(s.props[key], OwnOf(own, key).value, v, Child(at, key), keyPath, errors);
      NestedErrors(errors.byPath, old(errors.byPath), s, own, value, path, key);
      return if hasAny then Some(Obj(Child(at, key), nested)) else None;
    } else if s.props[key].Node? {
      accepted := Some(Default(s.props[key], Child(at, key)));
      reason := Some(InvalidShape);
    } else if !OwnOf(own, key).value.Whole? {
      reason := Some(NotOwned);
    } else {
      var checked := CheckValueAgainstSchema(s.props[key], v, Child(at, key));
      CheckContents(s.props[key], v, Child(at, key), NoRef);
      if checked.Some? {
        accepted := checked;
      } else {
        accepted := Some(Default(s.props[key], Child(at, key)));
        reason := Some(InvalidShape);
      }
    }
    RecordReason(s, own, value, path, key, reason, errors);
  }

  method RecordReason(
      s: Schema, own: Own, value: Value, path: seq<string>, key: string, reason: Option<Reason>, errors: FieldErrors)
    requires s.Node? && key in PropsOf(value) && errors.Valid()
    requires reason == ErrorAt(s, own, value, [key])
    requires forall rest :: rest != [] ==> ErrorAt(s, own, value, [key] + rest).None?
    modifies errors
    ensures errors.Valid()
    ensures Extended(errors.byPath, old(errors.byPath), s, own, value, path, {key})
  {
    if reason.Some? {
      errors.Record(path + [key], reason.value);
    }
    OwnErrors(errors.byPath, old(errors.byPath), s, own, value, path, key, reason);
  }

  lemma NestedErrors(
      entries: map<seq<string>, Reason>, before: map<seq<string>, Reason>,
      s: Schema, own: Own, value: Value, path: seq<string>, key: string)
    requires s.Node? && key in PropsOf(value) && Admitted(s, own, key)
    requires s.props[key].Node? && IsRecord(PropsOf(value)[key])
    requires Extended(entries, before, s.props[key], OwnOf(own, key).value, PropsOf(value)[key], path + [key],
                      PropsOf(PropsOf(value)[key]).Keys)
    ensures Extended(entries, before, s, own, value, path, {key})
  {
    var child, kown, v, keyPath := s.props[key], OwnOf(own, key).value, PropsOf(value)[key], path + [key];
    forall q ensures Lookup(entries, q) ==
      (if UnderKeys(q, path, {key}) && ErrorAt(s, own, value, q[|path|..]).Some?
       then ErrorAt(s, own, value, q[|path|..]) else Lookup(before, q))
    {
      PrefixIsKeyPath(q, path, key);
      if UnderKeys(q, path, {key}) {
        assert q[|path|..][0] == key && q[|path|..][1..] == q[|keyPath|..];
        assert ErrorAt(s, own, value, q[|path|..]) == ErrorAt(child, kown, v, q[|keyPath|..]);
      }
    }
  }

  lemma PrefixIsKeyPath(q: seq<string>, path: seq<string>, key: string)
    ensures UnderKeys(q, path, {key}) <==> |q| > |path| && q[..|path| + 1] == path + [key]
  {
    if |q| > |path| {
      assert q[..|path| + 1] == q[..|path|] + [q[|path|]];
    }
  }

  lemma OwnErrors(
      entries: map<seq<string>, Reason>, before: map<seq<string>, Reason>,
      s: Schema, own: Own, value: Value, path: seq<string>, key: string, reason: Option<Reason>)
    requires s.Node? && key in PropsOf(value)
    requires entries == if reason.Some? then before[path + [key] := reason.value] else before
    requires reason == ErrorAt(s, own, value, [key])
    requires forall rest :: rest != [] ==> ErrorAt(s, own, value, [key] + rest).None?
    ensures Extended(entries, before, s, own, value, path, {key})
  {
    forall q ensures Lookup(entries, q) ==
      (if UnderKeys(q, path, {key}) && ErrorAt(s, own, value, q[|path|..]).Some?
       then ErrorAt(s, own, value, q[|path|..]) else Lookup(before, q))
    {
      if UnderKeys(q, path, {key}) {
        var rest := q[|path| + 1..];
        assert q[|path|..] == [key] + rest;
        assert q == path + ([key] + rest);
        if rest == [] { assert [key] + rest == [key]; }
      }
    }
  }

  /** No two of the paths have one text. */
  ghost predicate Apart(paths: set<seq<string>>) {
    forall p, q | p in paths && q in paths && Dotted(p) == Dotted(q) :: p == q
  }

  ghost function Texts(paths: set<seq<string>>): set<string> {
    set q | q in paths :: Dotted(q)
  }

  lemma {:induction false} OneTextEachIffApart(paths: set<seq<string>>)
    ensures |Texts(paths)| <= |paths|
    ensures |Texts(paths)| == |paths| <==> Apart(paths)
    decreases |paths|
  {
    if paths != {} {
      var p :| p in paths;
      var rest := paths - {p};
      OneTextEachIffApart(rest);
      assert paths == rest + {p} && |paths| == |rest| + 1;
      assert Texts(paths) == Texts(rest) + {Dotted(p)} by { TextsOfMore(rest, p); }
      if Dotted(p) in Texts(rest) {
        var q :| q in rest && Dotted(q) == Dotted(p);
        assert Texts(paths) == Texts(rest);
        assert p in paths && q in paths && p != q;
      } else {
        assert |Texts(paths)| == |Texts(rest)| + 1;
        ApartWithMore(rest, p);
      }
    }
  }

  lemma TextsOfMore(rest: set<seq<string>>, p: seq<string>)
    ensures Texts(rest + {p}) == Texts(rest) + {Dotted(p)}
  {
  }

  lemma ApartWithMore(rest: set<seq<string>>, p: seq<string>)
    requires Dotted(p) !in Texts(rest)
    ensures Apart(rest + {p}) <==> Apart(rest)
  {
    forall q | q in rest ensures Dotted(q) in Texts(rest) {}
  }

  /** Some path with this text was dropped or reset; for this reason. */
  ghost predicate Blamed(s: Schema, own: Own, output: Value, text: string) {
    exists q: seq<string> :: Dotted(q) == text && ErrorAt(s, own, output, q).Some?
  }

  ghost predicate BlamedFor(s: Schema, own: Own, output: Value, text: string, reason: Reason) {
    exists q: seq<string> :: Dotted(q) == text && ErrorAt(s, own, output, q) == Some(reason)
  }

  /**
   * The whole of `resolveOperationPatch`. There is an entry for the dotted text of each path that was dropped or
   * reset, and for no other text; it gives the reason of such a path.
   */
  method ResolveOperationPatch(s: Schema, declared: Option<Own>, output: Value, at: Ref, errors: FieldErrors)
    returns (patch: Value)
    requires s.Node? && errors.Valid() && errors.byPath == map[] && errors.entries == map[]
    modifies errors
    ensures patch == AcceptedPatch(s, if declared.None? then Whole else declared.value, output, at)
    ensures IsRecord(output) ==>
      var own := if declared.None? then Whole else declared.value;
      forall d ::
        && (d in errors.entries <==> Blamed(s, own, output, d))
        && (d in errors.entries ==> BlamedFor(s, own, output, d, errors.entries[d]))
    ensures IsRecord(output) ==>
      forall q :: Lookup(errors.byPath, q) == ErrorAt(s, if declared.None? then Whole else declared.value, output, q)
    ensures !IsRecord(output) ==> errors.entries == map[]
    ensures errors.Valid()
    ensures IsRecord(output) ==>
      BlamesUnowned(s, if declared.None? then Whole else declared.value, output, errors.byPath)
  {
    if !IsRecord(output) {
      return Undef;
    }
    var effective := if declared.None? then Whole else declared.value;
    var accepted, hasAny := WalkLoop(s, effective, output, at, [], errors);
    forall q ensures Lookup(errors.byPath, q) == ErrorAt(s, effective, output, q) {
      assert q[0..] == q;
      assert q != [] ==> q[..0] == [];
    }
    TextsOfErrors(errors.entries, errors.byPath, s, effective, output);
    UnownedIsBlamed(s, effective, output, errors.byPath);
    patch := if hasAny then Obj(at, accepted) else Undef;
  }

  /** Whatever the output offers for a leaf under safe keys that `own` does not own has an error, at it or above it. */
  ghost predicate BlamesUnowned(s: Schema, own: Own, output: Value, byPath: map<seq<string>, Reason>) {
    forall path | IsLeafPath(s, path) && SafePath(path) && !Owns(own, path) && Read(output, path).Found? ::
      exists n | 0 < n <= |path| :: Lookup(byPath, path[..n]) == Some(NotOwned)
  }

  lemma UnownedIsBlamed(s: Schema, own: Own, output: Value, byPath: map<seq<string>, Reason>)
    requires s.Node? && forall q :: Lookup(byPath, q) == ErrorAt(s, own, output, q)
    ensures BlamesUnowned(s, own, output, byPath)
  {
    forall path | IsLeafPath(s, path) && SafePath(path) && !Owns(own, path) && Read(output, path).Found?
      ensures exists n | 0 < n <= |path| :: Lookup(byPath, path[..n]) == Some(NotOwned)
    {
      LeafIsBlamedIff(s, own, output, path);
      var n :| 0 < n <= |path| && ErrorAt(s, own, output, path[..n]) == Some(NotOwned);
      assert Lookup(byPath, path[..n]) == Some(NotOwned);
    }
  }

  lemma TextsOfErrors(
      entries: map<string, Reason>, byPath: map<seq<string>, Reason>, s: Schema, own: Own, output: Value)
    requires forall q | q in byPath :: Dotted(q) in entries
    requires forall d | d in entries :: exists q | q in byPath :: Dotted(q) == d && byPath[q] == entries[d]
    requires forall q :: Lookup(byPath, q) == ErrorAt(s, own, output, q)
    ensures forall d :: d in entries <==> Blamed(s, own, output, d)
    ensures forall d | d in entries :: BlamedFor(s, own, output, d, entries[d])
  {
    forall d | d in entries ensures BlamedFor(s, own, output, d, entries[d]) && Blamed(s, own, output, d) {
      var q :| q in byPath && Dotted(q) == d && byPath[q] == entries[d];
      assert Lookup(byPath, q) == Some(entries[d]);
      assert Dotted(q) == d && ErrorAt(s, own, output, q) == Some(entries[d]);
    }
    forall d | Blamed(s, own, output, d) ensures d in entries {
      var q: seq<string> :| Dotted(q) == d && ErrorAt(s, own, output, q).Some?;
      assert Lookup(byPath, q).Some?;
    }
  }

  /* ---- one entry for each error? ---- */

  /** There are as many entries as errors exactly when no two errors have one text; never are there more. */
  lemma EntriesPerErrorIff(errors: FieldErrors)
    requires errors.Valid()
    ensures |errors.entries| <= |errors.byPath|
    ensures |errors.entries| == |errors.byPath| <==> Apart(errors.byPath.Keys)
  {
    OneTextEachIffApart(errors.byPath.Keys);
    assert errors.entries.Keys == Texts(errors.byPath.Keys);
    assert |errors.entries| == |errors.entries.Keys| && |errors.byPath| == |errors.byPath.Keys|;
  }

  /** No key of the value, at any depth, has a dot in it. */
  ghost predicate DotFree(v: Value) {
    v.Obj? ==> forall k | k in v.props :: DOT !in k && DotFree(v.props[k])
  }

  lemma {:induction false} ErrorPathIsDotFree(s: Schema, own: Own, value: Value, path: seq<string>)
    requires DotFree(value) && ErrorAt(s, own, value, path).Some?
    ensures path != [] && forall i | 0 <= i < |path| :: DOT !in path[i]
    decreases |path|
  {
    if |path| > 1 {
      ErrorPathIsDotFree(s.props[path[0]], OwnOf(own, path[0]).value, PropsOf(value)[path[0]], path[1..]);
      assert forall i | 1 <= i < |path| :: path[i] == path[1..][i - 1];
    }
  }

  /** An output without dots in its keys leaves one entry for each error. */
  lemma DotFreeErrorsAreApart(s: Schema, own: Own, output: Value, byPath: map<seq<string>, Reason>)
    requires DotFree(output) && forall q :: Lookup(byPath, q) == ErrorAt(s, own, output, q)
    ensures Apart(byPath.Keys)
  {
    forall p, q | p in byPath && q in byPath && Dotted(p) == Dotted(q) ensures p == q {
      assert Lookup(byPath, p).Some? && Lookup(byPath, q).Some?;
      ErrorPathIsDotFree(s, own, output, p);
      ErrorPathIsDotFree(s, own, output, q);
      DottedApart(p, q);
    }
  }

  /** A schema with one empty object `a`, and an output with two keys it does not declare: `a.b`, and `b` within `a`. */
  function EmptyA(): Schema {
    Node(map["a" := Node(map[])])
  }

  function TwoUndeclared(): Value {
    Obj(NoRef, map["a.b" := Null, "a" := Obj(NoRef, map["b" := Null])])
  }

  lemma KeysOfExample()
    ensures "a" != "a.b" && "a" != "b" && "a.b" != "b"
    ensures forall k | k in {"a", "b", "a.b"} :: k !in UNSAFE_KEYS
  {
    assert |"a"| == 1 && |"a.b"| == 3 && |"b"| == 1 && "a"[0] == 'a' && "b"[0] == 'b';
    assert |"__proto__"| == 9 && |"constructor"| == 11 && |"prototype"| == 9;
  }

  lemma ErrorsOfExample(q: seq<string>)
    ensures ErrorAt(EmptyA(), Whole, TwoUndeclared(), q).Some? <==> q == ["a.b"] || q == ["a", "b"]
    ensures Dotted(["a.b"]) == Dotted(["a", "b"]) == "a.b"
  {
    KeysOfExample();
    assert ["a", "b"][1..] == ["b"] && Dotted(["b"]) == "b" && "a" + [DOT] + "b" == "a.b";
    if q != [] && q[0] == "a" {
      var inner, rest := Obj(NoRef, map["b" := Null]), q[1..];
      assert ErrorAt(EmptyA(), Whole, TwoUndeclared(), q) == ErrorAt(Node(map[]), Whole, inner, rest);
      assert ErrorAt(Node(map[]), Whole, inner, rest).Some? <==> rest == ["b"];
      assert q == ["a"] + rest;
    } else if q != [] && q[0] == "a.b" {
      assert |q| == 1 <==> q == ["a.b"];
    }
  }

  lemma BlamedInExample(d: string)
    ensures Blamed(EmptyA(), Whole, TwoUndeclared(), d) <==> d == "a.b"
  {
    ErrorsOfExample(["a.b"]);
    if Blamed(EmptyA(), Whole, TwoUndeclared(), d) {
      var q: seq<string> :| Dotted(q) == d && ErrorAt(EmptyA(), Whole, TwoUndeclared(), q).Some?;
      ErrorsOfExample(q);
    }
  }

  /** Two fields are dropped, `a.b` and `b` within `a`; the walk leaves one entry. */
  method TwoErrorsOneEntry() returns (entries: map<string, Reason>)
    ensures ErrorAt(EmptyA(), Whole, TwoUndeclared(), ["a.b"]).Some?
    ensures ErrorAt(EmptyA(), Whole, TwoUndeclared(), ["a", "b"]).Some?
    ensures entries.Keys == {"a.b"}
  {
    var errors := new FieldErrors();
    var _ := ResolveOperationPatch(EmptyA(), None, TwoUndeclared(), NoRef, errors);
    entries := errors.entries;
    ErrorsOfExample(["a.b"]);
    ErrorsOfExample(["a", "b"]);
    forall d ensures d in entries <==> d == "a.b" { BlamedInExample(d); }
  }
}
