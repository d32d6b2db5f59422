/**
 * Resolving the defaults of a declaration as a developer writes it: a graph of objects that may share nodes or
 * contain cycles. The walk keeps a shared stack of the nodes it is visiting, which must be restored however it
 * ends; a rejected declaration (the source throws) is None.
 */
module SchemaGraph {
  import opened Options
  import opened Values
  import opened Patch
  import opened Schemas

  /** A non-object (or null) or built-in written in place, or a reference to a node. */
  datatype Term = Atom(v: Value) | To(r: nat)
  datatype TermNode =
    | ArrayNode(items: seq<Term>)
    | ObjectNode(props: map<string, Term>)
    | MarkerNode(kind: MarkerKind, inner: Term)

  type Heap = map<nat, TermNode>

  const MAX_FIELD_DEPTH := 200
  const INNER := "<nullable/optional inner>"

  predicate AtomAllowed(v: Value) {
    !v.Function? && !v.Obj? && !v.Arr?
  }

  function AtomSchema(v: Value): Schema
    requires AtomAllowed(v)
  {
    if v.Builtin? then Fixed(v.kind, v.ref) else Leaf(v)
  }

  /** The declaration `t` unfolds to exactly the schema `s`; a function value denotes nothing. */
  ghost predicate Denotes(h: Heap, t: Term, s: Schema)
    decreases s
  {
    match t
    case Atom(v) => AtomAllowed(v) && s == AtomSchema(v)
    case To(r) =>
      && r in h
      && match h[r]
         case ArrayNode(items) =>
           && s.List? && |s.items| == |items|
           && forall i | 0 <= i < |items| :: Denotes(h, items[i], s.items[i])
         case ObjectNode(props) =>
           && s.Node? && s.props.Keys == props.Keys
           && forall k | k in props :: Denotes(h, props[k], s.props[k])
         case MarkerNode(kind, inner) => s.Marker? && s.kind == kind && Denotes(h, inner, s.inner)
  }

  ghost predicate Fits(s: Schema, depth: nat)
    decreases s
  {
    && depth <= MAX_FIELD_DEPTH
    && match s
       case List(items) => forall i | 0 <= i < |items| :: Fits(items[i], depth + 1)
       case Node(props) => forall k | k in props :: Fits(props[k], depth + 1)
       case Marker(_, inner) => Fits(inner, depth + 1)
       case _ => true
  }

  lemma {:induction false} DenotesUnique(h: Heap, t: Term, s1: Schema, s2: Schema)
    requires Denotes(h, t, s1) && Denotes(h, t, s2)
    ensures s1 == s2
    decreases s1
  {
    if t.To? {
      match h[t.r]
      case ArrayNode(items) =>
        forall i | 0 <= i < |items| ensures s1.items[i] == s2.items[i] {
          DenotesUnique(h, items[i], s1.items[i], s2.items[i]);
        }
        assert s1.items == s2.items;
      case ObjectNode(props) =>
        forall k | k in props ensures s1.props[k] == s2.props[k] {
          DenotesUnique(h, props[k], s1.props[k], s2.props[k]);
        }
        assert s1.props == s2.props;
      case MarkerNode(_, inner) => DenotesUnique(h, inner, s1.inner, s2.inner);
    }
  }

  /** `resolveFieldDefaults(t, path, stack)`; None when it throws. */
  ghost function Resolve(h: Heap, t: Term, path: seq<string>, stack: set<nat>, stamp: nat): Option<Value>
    requires |path| <= MAX_FIELD_DEPTH + 1
    decreases MAX_FIELD_DEPTH + 1 - |path|
  {
    if |path| > MAX_FIELD_DEPTH then None
    else
      match t
      case Atom(v) => if AtomAllowed(v) then Some(v) else None
      case To(r) =>
        if r !in h then None
        else
          match h[r]
          case MarkerNode(kind, inner) =>
            if Resolve(h, inner, path + [INNER], stack, stamp).None? then None
            else Some(if kind.Nullable? then Null else Undef)
          case ArrayNode(items) =>
            if r in stack || exists i | 0 <= i < |items| :: ItemAt(h, items, i, path, stack + {r}, stamp).None?
            then None
            else
              Some(Arr(Ref(stamp, path), seq(|items|, i requires 0 <= i < |items| =>
                ValueOr(ItemAt(h, items, i, path, stack + {r}, stamp)))))
          case ObjectNode(props) =>
            if r in stack || exists k | k in props :: PropAt(h, props, k, path, stack + {r}, stamp).None?
            then None
            else
              Some(Obj(Ref(stamp, path),
                       map k | k in props :: ValueOr(PropAt(h, props, k, path, stack + {r}, stamp))))
  }

  ghost function ItemAt(h: Heap, items: seq<Term>, i: nat, path: seq<string>, stack: set<nat>, stamp: nat)
    : Option<Value>
    requires |path| <= MAX_FIELD_DEPTH && i < |items|
    decreases MAX_FIELD_DEPTH + 1 - |path|, 0
  {
    Resolve(h, items[i], path + [Decimal(i)], stack, stamp)
  }

  ghost function PropAt(h: Heap, props: map<string, Term>, k: string, path: seq<string>, stack: set<nat>, stamp: nat)
    : Option<Value>
    requires |path| <= MAX_FIELD_DEPTH && k in props
    decreases MAX_FIELD_DEPTH + 1 - |path|, 0
  {
    Resolve(h, props[k], path + [k], stack, stamp)
  }

  function ValueOr(r: Option<Value>): Value {
    match r case Some(v) => v case None => Undef
  }

  /* ---- what is accepted, and what it resolves to ---- */

  lemma {:induction false} ResolveSound(h: Heap, t: Term, path: seq<string>, stack: set<nat>, stamp: nat)
    returns (s: Schema)
    requires |path| <= MAX_FIELD_DEPTH + 1
    requires Resolve(h, t, path, stack, stamp).Some?
    ensures Denotes(h, t, s) && Fits(s, |path|)
    ensures Resolve(h, t, path, stack, stamp) == Some(Default(s, Ref(stamp, path)))
    decreases MAX_FIELD_DEPTH + 1 - |path|, 0
  {
    if t.Atom? {
      s := AtomSchema(t.v);
    } else {
      match h[t.r]
      case MarkerNode(kind, inner) =>
        var i := ResolveSound(h, inner, path + [INNER], stack, stamp);
        s := Marker(kind, i);
      case ArrayNode(items) =>
        var parts := ItemsSound(h, items, |items|, path, stack + {t.r}, stamp);
        s := List(parts);
        ArrayResolved(h, t.r, path, stack, stamp, Default(s, Ref(stamp, path)));
      case ObjectNode(props) =>
        var parts := PropsSound(h, props, props.Keys, path, stack + {t.r}, stamp);
        s := Node(parts);
        ObjectResolved(h, t.r, path, stack, stamp, Default(s, Ref(stamp, path)));
    }
  }

  lemma {:induction false} ItemsSound(
      h: Heap, items: seq<Term>, n: nat, path: seq<string>, stack: set<nat>, stamp: nat)
    returns (parts: seq<Schema>)
    requires |path| <= MAX_FIELD_DEPTH && n <= |items|
    requires forall i | 0 <= i < n :: ItemAt(h, items, i, path, stack, stamp).Some?
    ensures |parts| == n
    ensures forall i | 0 <= i < n ::
      && Denotes(h, items[i], parts[i]) && Fits(parts[i], |path| + 1)
      && ItemAt(h, items, i, path, stack, stamp) == Some(Default(parts[i], Child(Ref(stamp, path), Decimal(i))))
    decreases MAX_FIELD_DEPTH - |path|, 1, n
  {
    if n == 0 {
      parts := [];
    } else {
      var before := ItemsSound(h, items, n - 1, path, stack, stamp);
      assert ItemAt(h, items, n - 1, path, stack, stamp).Some?;
      var last := ResolveSound(h, items[n - 1], path + [Decimal(n - 1)], stack, stamp);
      parts := before + [last];
    }
  }

  lemma {:induction false} PropsSound(
      h: Heap, props: map<string, Term>, keys: set<string>, path: seq<string>, stack: set<nat>, stamp: nat)
    returns (parts: map<string, Schema>)
    requires |path| <= MAX_FIELD_DEPTH && keys <= props.Keys
    requires forall k | k in keys :: PropAt(h, props, k, path, stack, stamp).Some?
    ensures parts.Keys == keys
    ensures forall k | k in keys ::
      && Denotes(h, props[k], parts[k]) && Fits(parts[k], |path| + 1)
      && PropAt(h, props, k, path, stack, stamp) == Some(Default(parts[k], Child(Ref(stamp, path), k)))
    decreases MAX_FIELD_DEPTH - |path|, 1, keys
  {
    if keys == {} {
      parts := map[];
    } else {
      var k :| k in keys;
      var rest := PropsSound(h, props, keys - {k}, path, stack, stamp);
      var part := ResolveSound(h, props[k], path + [k], stack, stamp);
      parts := rest[k := part];
    }
  }

  /** Every node on the stack denotes a schema that properly contains `s`. */
  ghost predicate Above(h: Heap, stack: set<nat>, s: Schema) {
    forall x | x in stack :: exists big: Schema :: Denotes(h, To(x), big) && s < big
  }

  lemma {:induction false} ResolveComplete(
      h: Heap, t: Term, path: seq<string>, stack: set<nat>, stamp: nat, s: Schema)
    requires |path| <= MAX_FIELD_DEPTH
    requires Denotes(h, t, s) && Fits(s, |path|) && Above(h, stack, s)
    ensures Resolve(h, t, path, stack, stamp) == Some(Default(s, Ref(stamp, path)))
    decreases s, 1
  {
    if t.To? {
      if t.r in stack && !h[t.r].MarkerNode? {
        var big: Schema :| Denotes(h, To(t.r), big) && s < big;
        DenotesUnique(h, t, s, big);
        assert false;
      }
      match h[t.r]
      case MarkerNode(_, inner) => ResolveComplete(h, inner, path + [INNER], stack, stamp, s.inner);
      case ArrayNode(_) => ArrayComplete(h, t.r, path, stack, stamp, s);
      case ObjectNode(_) => ObjectComplete(h, t.r, path, stack, stamp, s);
    }
  }

  lemma {:induction false} ArrayComplete(h: Heap, r: nat, path: seq<string>, stack: set<nat>, stamp: nat, s: Schema)
    requires |path| <= MAX_FIELD_DEPTH && r in h && h[r].ArrayNode? && r !in stack
    requires Denotes(h, To(r), s) && Fits(s, |path|) && Above(h, stack, s)
    ensures Resolve(h, To(r), path, stack, stamp) == Some(Default(s, Ref(stamp, path)))
    decreases s, 0
  {
    var items := h[r].items;
    forall i | 0 <= i < |items|
      ensures ItemAt(h, items, i, path, stack + {r}, stamp)
           == Some(Default(s.items[i], Child(Ref(stamp, path), Decimal(i))))
    {
      PartsAreAbove(h, r, stack, s, s.items[i]);
      ResolveComplete(h, items[i], path + [Decimal(i)], stack + {r}, stamp, s.items[i]);
    }
    ArrayResolved(h, r, path, stack, stamp, Default(s, Ref(stamp, path)));
  }

  lemma ArrayResolved(h: Heap, r: nat, path: seq<string>, stack: set<nat>, stamp: nat, v: Value)
    requires |path| <= MAX_FIELD_DEPTH && r in h && h[r].ArrayNode? && r !in stack
    requires v.Arr? && v.ref == Ref(stamp, path) && |v.items| == |h[r].items|
    requires forall i | 0 <= i < |v.items| :: ItemAt(h, h[r].items, i, path, stack + {r}, stamp) == Some(v.items[i])
    ensures Resolve(h, To(r), path, stack, stamp) == Some(v)
  {
    var items := h[r].items;
    assert !exists i | 0 <= i < |items| :: ItemAt(h, items, i, path, stack + {r}, stamp).None?;
    var all := seq(|items|, i requires 0 <= i < |items| => ValueOr(ItemAt(h, items, i, path, stack + {r}, stamp)));
    assert all == v.items;
  }

  lemma ObjectResolved(h: Heap, r: nat, path: seq<string>, stack: set<nat>, stamp: nat, v: Value)
    requires |path| <= MAX_FIELD_DEPTH && r in h && h[r].ObjectNode? && r !in stack
    requires v.Obj? && v.ref == Ref(stamp, path) && v.props.Keys == h[r].props.Keys
    requires forall k | k in v.props :: PropAt(h, h[r].props, k, path, stack + {r}, stamp) == Some(v.props[k])
    ensures Resolve(h, To(r), path, stack, stamp) == Some(v)
  {
    var props := h[r].props;
    assert !exists k | k in props :: PropAt(h, props, k, path, stack + {r}, stamp).None?;
    var all := map k | k in props :: ValueOr(PropAt(h, props, k, path, stack + {r}, stamp));
    assert all == v.props;
  }

  lemma {:induction false} ObjectComplete(h: Heap, r: nat, path: seq<string>, stack: set<nat>, stamp: nat, s: Schema)
    requires |path| <= MAX_FIELD_DEPTH && r in h && h[r].ObjectNode? && r !in stack
    requires Denotes(h, To(r), s) && Fits(s, |path|) && Above(h, stack, s)
    ensures Resolve(h, To(r), path, stack, stamp) == Some(Default(s, Ref(stamp, path)))
    decreases s, 0
  {
    var props := h[r].props;
    forall k | k in props
      ensures PropAt(h, props, k, path, stack + {r}, stamp) == Some(Default(s.props[k], Child(Ref(stamp, path), k)))
    {
      PartsAreAbove(h, r, stack, s, s.props[k]);
      ResolveComplete(h, props[k], path + [k], stack + {r}, stamp, s.props[k]);
    }
    ObjectResolved(h, r, path, stack, stamp, Default(s, Ref(stamp, path)));
  }

  lemma PartsAreAbove(h: Heap, r: nat, stack: set<nat>, s: Schema, part: Schema)
    requires Denotes(h, To(r), s) && Above(h, stack, s) && part < s
    ensures Above(h, stack + {r}, part)
  {
    forall x | x in stack + {r} ensures exists big: Schema :: Denotes(h, To(x), big) && part < big {
      if x == r { assert Denotes(h, To(x), s); }
    }
  }

  ghost predicate Resolves(h: Heap, t: Term, s: Schema, v: Value, stamp: nat) {
    Denotes(h, t, s) && Fits(s, 0) && v == Default(s, Ref(stamp, []))
  }

  /**
   * The declaration is accepted, with result `v`, exactly when it unfolds to a finite schema without functions at
   * most MAX_FIELD_DEPTH deep whose default is `v`. The stack does not occur on the right: it rejects cycles
   * early, and nothing the depth bound alone would accept; a node shared by two branches is no cycle.
   */
  lemma ResolveMeaning(h: Heap, t: Term, stamp: nat, v: Value)
    ensures Resolve(h, t, [], {}, stamp) == Some(v) <==> exists s: Schema :: Resolves(h, t, s, v, stamp)
  {
    if Resolve(h, t, [], {}, stamp) == Some(v) {
      var s := ResolveSound(h, t, [], {}, stamp);
      assert Resolves(h, t, s, v, stamp);
    }
    if s: Schema :| Resolves(h, t, s, v, stamp) {
      ResolveComplete(h, t, [], {}, stamp, s);
    }
  }

  ghost predicate HasPart(h: Heap, t: Term, part: Term) {
    && t.To? && t.r in h
    && match h[t.r]
       case ArrayNode(items) => part in items
       case ObjectNode(props) => exists k | k in props :: props[k] == part
       case MarkerNode(_, inner) => part == inner
  }

  /** Each term is a part of the one before it: the last is found that many levels below the first. */
  ghost predicate IsChain(h: Heap, chain: seq<Term>) {
    chain != [] && forall i | 0 <= i < |chain| - 1 :: HasPart(h, chain[i], chain[i + 1])
  }

  lemma {:induction false} FitsHigherUp(s: Schema, depth: nat, less: nat)
    requires Fits(s, depth) && less <= depth
    ensures Fits(s, less)
    decreases s
  {
    match s
    case List(_) =>
      forall i | 0 <= i < |s.items| ensures Fits(s.items[i], less + 1) {
        FitsHigherUp(s.items[i], depth + 1, less + 1);
      }
    case Node(props) =>
      forall k | k in props ensures Fits(props[k], less + 1) { FitsHigherUp(props[k], depth + 1, less + 1); }
    case Marker(_, inner) => FitsHigherUp(inner, depth + 1, less + 1);
    case _ =>
  }

  lemma {:induction false} PartDenotes(h: Heap, chain: seq<Term>, s: Schema) returns (part: Schema)
    requires IsChain(h, chain) && Denotes(h, chain[0], s) && Fits(s, 0)
    ensures Denotes(h, chain[|chain| - 1], part) && Fits(part, |chain| - 1)
    decreases |chain|
  {
    part := s;
    var n := |chain| - 1;
    if n > 0 {
      assert IsChain(h, chain[..n]) && HasPart(h, chain[n - 1], chain[n]);
      var above := PartDenotes(h, chain[..n], s);
      match h[chain[n - 1].r] {
        case ArrayNode(items) =>
          var i :| 0 <= i < |items| && items[i] == chain[n];
          part := above.items[i];
        case ObjectNode(props) =>
          var k :| k in props && props[k] == chain[n];
          part := above.props[k];
        case MarkerNode(_, _) => part := above.inner;
      }
    }
  }

  /**
   * A part of an accepted declaration resolves again, from an empty stack and at any path no longer than it is deep:
   * resetting a subtree to its default never throws.
   */
  lemma AcceptedPartsResolve(h: Heap, first: nat, chain: seq<Term>, path: seq<string>, stamp: nat)
    returns (part: Schema)
    requires IsChain(h, chain) && Resolve(h, chain[0], [], {}, first).Some? && |path| < |chain|
    ensures Denotes(h, chain[|chain| - 1], part) && |path| <= MAX_FIELD_DEPTH
    ensures Resolve(h, chain[|chain| - 1], path, {}, stamp) == Some(Default(part, Ref(stamp, path)))
    ensures chain[|chain| - 1].Atom? ==> !chain[|chain| - 1].v.Function?
  {
    var s := ResolveSound(h, chain[0], [], {}, first);
    part := PartDenotes(h, chain, s);
    FitsHigherUp(part, |chain| - 1, |path|);
    ResolveComplete(h, chain[|chain| - 1], path, {}, stamp, part);
  }

  /* ---- the walk with its shared stack ---- */

  class VisitStack {
    var nodes: set<nat>

    constructor ()
      ensures nodes == {}
    {
      nodes := {};
    }
  }

  /** Every exit, accepting or rejecting, leaves the stack as it was. */
  method ResolveFieldDefaults(h: Heap, t: Term, path: seq<string>, stack: VisitStack, stamp: nat)
    returns (r: Option<Value>)
    requires |path| <= MAX_FIELD_DEPTH + 1
    modifies stack
    ensures r == Resolve(h, t, path, old(stack.nodes), stamp)
    ensures stack.nodes == old(stack.nodes)
    decreases MAX_FIELD_DEPTH + 1 - |path|, 2
  {
    if |path| > MAX_FIELD_DEPTH {
      return None;
    }
    if t.Atom? {
      return if AtomAllowed(t.v) then Some(t.v) else None;
    }
    if t.r !in h {
      return None;
    }
    if h[t.r].MarkerNode? {
      var inner := ResolveFieldDefaults(h, h[t.r].inner, path + [INNER], stack, stamp);
      return if inner.None? then None else Some(if h[t.r].kind.Nullable? then Null else Undef);
    }
    if t.r in stack.nodes {
      return None;
    }
    stack.nodes := stack.nodes + {t.r};
    if h[t.r].ArrayNode? {
      r := ResolveItems(h, h[t.r].items, path, stack, stamp);
      if r.Some? { ArrayResolved(h, t.r, path, old(stack.nodes), stamp, r.value); }
    } else {
      r := ResolveProps(h, h[t.r].props, path, stack, stamp);
      if r.Some? { ObjectResolved(h, t.r, path, old(stack.nodes), stamp, r.value); }
    }
    stack.nodes := stack.nodes - {t.r};
  }

  method ResolveItems(h: Heap, items: seq<Term>, path: seq<string>, stack: VisitStack, stamp: nat)
    returns (r: Option<Value>)
    requires |path| <= MAX_FIELD_DEPTH
    modifies stack
    ensures stack.nodes == old(stack.nodes)
    ensures r.None? <==> exists i | 0 <= i < |items| :: ItemAt(h, items, i, path, stack.nodes, stamp).None?
    ensures r.Some? ==>
      && r.value.Arr? && r.value.ref == Ref(stamp, path) && |r.value.items| == |items|
      && forall i | 0 <= i < |items| :: ItemAt(h, items, i, path, stack.nodes, stamp) == Some(r.value.items[i])
    decreases MAX_FIELD_DEPTH + 1 - |path|, 1
  {
    var result: seq<Value> := [];
    for n := 0 to |items|
      invariant stack.nodes == old(stack.nodes) && |result| == n
      invariant forall i | 0 <= i < n :: ItemAt(h, items, i, path, old(stack.nodes), stamp) == Some(result[i])
    {
      var item := ResolveFieldDefaults(h, items[n], path + [Decimal(n)], stack, stamp);
      assert item == ItemAt(h, items, n, path, old(stack.nodes), stamp);
      if item.None? {
        return None;
      }
      result := result + [item.value];
    }
    return Some(Arr(Ref(stamp, path), result));
  }

  method ResolveProps(h: Heap, props: map<string, Term>, path: seq<string>, stack: VisitStack, stamp: nat)
    returns (r: Option<Value>)
    requires |path| <= MAX_FIELD_DEPTH
    modifies stack
    ensures stack.nodes == old(stack.nodes)
    ensures r.None? <==> exists k | k in props :: PropAt(h, props, k, path, stack.nodes, stamp).None?
    ensures r.Some? ==>
      && r.value.Obj? && r.value.ref == Ref(stamp, path) && r.value.props.Keys == props.Keys
      && forall k | k in props :: PropAt(h, props, k, path, stack.nodes, stamp) == Some(r.value.props[k])
    decreases MAX_FIELD_DEPTH + 1 - |path|, 1
  {
    var result: map<string, Value> := map[];
    var todo := props.Keys;
    while todo != {}
      invariant stack.nodes == old(stack.nodes) && todo <= props.Keys && result.Keys == props.Keys - todo
      invariant forall k | k in result :: PropAt(h, props, k, path, old(stack.nodes), stamp) == Some(result[k])
    {
      var key :| key in todo;
      todo := todo - {key};
      var value := ResolveFieldDefaults(h, props[key], path + [key], stack, stamp);
      assert value == PropAt(h, props, key, path, old(stack.nodes), stamp);
      if value.None? {
        return None;
      }
      result := result[key := value.value];
    }
    return Some(Obj(Ref(stamp, path), result));
  }

  /* ---- buildData ---- */

  const FIRST_STAMP := 2

  /** The initial snapshot: declared defaults and empty info; None when the declaration is rejected. */
  method BuildData(h: Heap, declaration: Term) returns (r: Option<State>)
    ensures r.Some? <==> exists s: Schema :: Denotes(h, declaration, s) && Fits(s, 0)
    ensures forall s: Schema | Denotes(h, declaration, s) && Fits(s, 0) ::
      r == Some(Initial(s)) && Conforms(s, r.value.fields, true)
  {
    var stack := new VisitStack();
    var fields := ResolveFieldDefaults(h, declaration, [], stack, 0);
    if fields.Some? {
      ghost var s := ResolveSound(h, declaration, [], {}, 0);
      assert Denotes(h, declaration, s) && Fits(s, 0);
    }
    forall s: Schema | Denotes(h, declaration, s) && Fits(s, 0)
      ensures fields.Some?
      ensures fields == Some(Default(s, Ref(0, []))) && Conforms(s, Default(s, Ref(0, [])), true)
    {
      ResolveComplete(h, declaration, [], {}, 0, s);
      DefaultConforms(s, Ref(0, []));
    }
    r := if fields.None? then None else Some(State(0, fields.value, Obj(Ref(1, []), map[])));
  }

  function Initial(s: Schema): State {
    State(0, Default(s, Ref(0, [])), Obj(Ref(1, []), map[]))
  }
}
