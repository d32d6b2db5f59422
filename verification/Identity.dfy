/** Keyed reconciliation of an array field's info against a new array of items. */
module Identity {
  import opened Options
  import opened Text
  import opened Canonical

  datatype Reason = MissingKey | MalformedItem | DuplicateIdentity
  datatype Warning = Warning(path: seq<JsString>, reason: Reason)

  /** What an item offers to `Object.hasOwn`: none for a non-object or an array. */
  datatype ItemShape = Malformed | WithOwn(props: map<JsString, Val>)

  function Shape(h: Heap, item: Val): ItemShape {
    match item
    case Prim(p) => if p.Date? || p.InvalidDate? || p.Url? || p.RegExp? then WithOwn(map[]) else Malformed
    case Ref(r) => if r !in h || h[r].ArrayNode? then Malformed else WithOwn(h[r].props)
  }

  function MissingToken(): JsString {
    EncodeScalar(Undefined)
  }

  /** One component of an identity: the canonical text of the item's value, or the token for "no value". */
  ghost function Component(h: Heap, item: Val, key: JsString): JsString
    requires WellFormed(h)
  {
    match Shape(h, item)
    case Malformed => MissingToken()
    case WithOwn(props) =>
      if key !in props then MissingToken()
      else match Canon(h, props[key], {}, 0) case None => MissingToken() case Some(s) => s
  }

  function Concat(parts: seq<JsString>): JsString {
    if parts == [] then [] else parts[0] + Concat(parts[1..])
  }

  lemma {:induction false} ConcatSnoc(parts: seq<JsString>, last: JsString)
    ensures Concat(parts + [last]) == Concat(parts) + last
  {
    if parts == [] {
      assert [last][1..] == [] && last + [] == last && [] + last == last;
    } else {
      assert (parts + [last])[1..] == parts[1..] + [last];
      ConcatSnoc(parts[1..], last);
      assert parts[0] + (Concat(parts[1..]) + last) == (parts[0] + Concat(parts[1..])) + last;
    }
  }

  ghost function Components(h: Heap, item: Val, keys: seq<JsString>): seq<JsString>
    requires WellFormed(h)
  {
    seq(|keys|, i requires 0 <= i < |keys| => Component(h, item, keys[i]))
  }

  /** The components, with nothing between them. */
  ghost function ItemIdentity(h: Heap, item: Val, keys: seq<JsString>): JsString
    requires WellFormed(h)
  {
    Concat(Components(h, item, keys))
  }

  /** The warnings one item causes: one if it is no keyed object, else one for every key it lacks. */
  ghost function ItemWarnings(h: Heap, item: Val, keys: seq<JsString>, path: seq<JsString>): seq<Warning> {
    match Shape(h, item)
    case Malformed => [Warning(path, MalformedItem)]
    case WithOwn(props) => MissingKeyWarnings(props, keys, path)
  }

  ghost function MissingKeyWarnings(props: map<JsString, Val>, keys: seq<JsString>, path: seq<JsString>): seq<Warning> {
    if keys == [] then []
    else
      (if keys[0] in props then [] else [Warning(path + [keys[0]], MissingKey)])
      + MissingKeyWarnings(props, keys[1..], path)
  }

  /* ---- when identities collide ---- */

  /** The tree one component stands for: what its value denotes, or `undefined` when there is none to encode. */
  ghost function StandsFor(h: Heap, item: Val, key: JsString): Tree
    requires WellFormed(h)
  {
    match Shape(h, item)
    case Malformed => Leaf(Undefined)
    case WithOwn(props) =>
      if key !in props || Canon(h, props[key], {}, 0).None? then Leaf(Undefined)
      else
        var s := Canon(h, props[key], {}, 0).value;
        CanonicalizeMeaning(h, props[key], s);
        var t: Tree :| Renders(h, props[key], t, s);
        t
  }

  lemma ComponentEncodes(h: Heap, item: Val, key: JsString)
    requires WellFormed(h)
    ensures Encodable(StandsFor(h, item, key)) && Component(h, item, key) == Encode(StandsFor(h, item, key))
  {
    var shape := Shape(h, item);
    if shape.WithOwn? && key in shape.props && Canon(h, shape.props[key], {}, 0).Some? {
      var s := Canon(h, shape.props[key], {}, 0).value;
      CanonicalizeMeaning(h, shape.props[key], s);
      assert Renders(h, shape.props[key], StandsFor(h, item, key), s);
    }
  }

  ghost function StandFor(h: Heap, item: Val, keys: seq<JsString>): seq<Tree>
    requires WellFormed(h)
  {
    seq(|keys|, i requires 0 <= i < |keys| => StandsFor(h, item, keys[i]))
  }

  ghost function Encodings(ts: seq<Tree>): seq<JsString>
    requires forall i | 0 <= i < |ts| :: Encodable(ts[i])
  {
    seq(|ts|, i requires 0 <= i < |ts| => Encode(ts[i]))
  }

  lemma {:induction false} ConcatInjective(ts1: seq<Tree>, ts2: seq<Tree>)
    requires |ts1| == |ts2| && forall i | 0 <= i < |ts1| :: Encodable(ts1[i]) && Encodable(ts2[i])
    requires Concat(Encodings(ts1)) == Concat(Encodings(ts2))
    ensures ts1 == ts2
  {
    if ts1 != [] {
      var e1, e2 := Encodings(ts1), Encodings(ts2);
      assert e1[1..] == Encodings(ts1[1..]) && e2[1..] == Encodings(ts2[1..]);
      EncodePrefixFree(ts1[0], Concat(e1[1..]), ts2[0], Concat(e2[1..]));
      ConcatInjective(ts1[1..], ts2[1..]);
      assert ts1 == [ts1[0]] + ts1[1..] && ts2 == [ts2[0]] + ts2[1..];
    }
  }

  lemma ComponentsEncode(h: Heap, item: Val, keys: seq<JsString>)
    requires WellFormed(h)
    ensures forall i | 0 <= i < |keys| :: Encodable(StandFor(h, item, keys)[i])
    ensures Components(h, item, keys) == Encodings(StandFor(h, item, keys))
  {
    forall i | 0 <= i < |keys|
      ensures var t := StandsFor(h, item, keys[i]);
              Encodable(t) && Component(h, item, keys[i]) == Encode(t)
    {
      ComponentEncodes(h, item, keys[i]);
    }
  }

  /**
   * Two items of any shape, even in different heaps, share a composite identity exactly when component for
   * component they stand for structurally equal trees. No separator stands between the components.
   */
  lemma SharedIdentityMeansEqualComponents(h1: Heap, item1: Val, h2: Heap, item2: Val, keys: seq<JsString>)
    requires WellFormed(h1) && WellFormed(h2)
    ensures ItemIdentity(h1, item1, keys) == ItemIdentity(h2, item2, keys)
       <==> StandFor(h1, item1, keys) == StandFor(h2, item2, keys)
  {
    ComponentsEncode(h1, item1, keys);
    ComponentsEncode(h2, item2, keys);
    if ItemIdentity(h1, item1, keys) == ItemIdentity(h2, item2, keys) {
      ConcatInjective(StandFor(h1, item1, keys), StandFor(h2, item2, keys));
    }
  }

  /** The component degrades although the item has the key, so that no warning is recorded for it. */
  ghost predicate DegradesSilently(h: Heap, item: Val, key: JsString)
    requires WellFormed(h)
  {
    && Shape(h, item).WithOwn? && key in Shape(h, item).props
    && (Shape(h, item).props[key] == Prim(Undefined) || Canon(h, Shape(h, item).props[key], {}, 0).None?)
  }

  /**
   * A component is the "no value" token exactly when the item is no keyed object, lacks the key -- both recorded --
   * or degrades silently: `null` is none of these, and an `undefined` or unencodable value is never recorded.
   */
  lemma DegradedMeaning(h: Heap, item: Val, keys: seq<JsString>, path: seq<JsString>, key: JsString)
    requires WellFormed(h) && key in keys
    ensures var recorded := Warning(path, MalformedItem) in ItemWarnings(h, item, keys, path)
                            || Warning(path + [key], MissingKey) in ItemWarnings(h, item, keys, path);
            && (Component(h, item, key) == MissingToken() <==> recorded || DegradesSilently(h, item, key))
            && !(recorded && DegradesSilently(h, item, key))
  {
    var shape := Shape(h, item);
    if shape.WithOwn? {
      MissingIsRecorded(shape.props, keys, path, key);
      if key in shape.props && Canon(h, shape.props[key], {}, 0).Some? {
        ComponentEncodes(h, item, key);
        if Component(h, item, key) == MissingToken() {
          EncodePrefixFree(StandsFor(h, item, key), [], Leaf(Undefined), []);
          CanonicalizeMeaning(h, shape.props[key], MissingToken());
          assert Denotes(h, shape.props[key], Leaf(Undefined));
        }
      }
    }
  }

  lemma {:induction false} MissingIsRecorded(
      props: map<JsString, Val>, keys: seq<JsString>, path: seq<JsString>, key: JsString)
    requires key in keys
    ensures Warning(path + [key], MissingKey) in MissingKeyWarnings(props, keys, path) <==> key !in props
    ensures Warning(path, MalformedItem) !in MissingKeyWarnings(props, keys, path)
  {
    OnlyMissingIsRecorded(props, keys, path);
    if keys[0] != key {
      assert key in keys[1..];
      MissingIsRecorded(props, keys[1..], path, key);
      assert (path + [keys[0]])[|path|] == keys[0] && (path + [key])[|path|] == key;
    }
  }

  lemma {:induction false} OnlyMissingIsRecorded(props: map<JsString, Val>, keys: seq<JsString>, path: seq<JsString>)
    ensures forall w | w in MissingKeyWarnings(props, keys, path) ::
              w.reason == MissingKey && exists k :: k !in props && w.path == path + [k]
  {
    if keys != [] {
      OnlyMissingIsRecorded(props, keys[1..], path);
    }
  }

  lemma SingleItem(h: Heap, r: nat, key: JsString, v: Val, path: seq<JsString>)
    requires WellFormed(h) && r in h && h[r] == PlainNode([key], map[key := v])
    ensures ItemIdentity(h, Ref(r), [key]) == Component(h, Ref(r), key)
    ensures ItemWarnings(h, Ref(r), [key], path) == []
  {
    assert Components(h, Ref(r), [key]) == [Component(h, Ref(r), key)];
    assert Concat([Component(h, Ref(r), key)]) == Component(h, Ref(r), key) + Concat([]);
    assert [key][1..] == [] && MissingKeyWarnings(map[key := v], [], path) == [];
  }

  /** Two items whose keys are different functions share an identity, and neither causes a warning. */
  lemma FunctionsCollideSilently(key: JsString, f: nat, g: nat)
    ensures var h: Heap := map[0 := PlainNode([key], map[key := Prim(Function(f))]),
                               1 := PlainNode([key], map[key := Prim(Function(g))])];
            && WellFormed(h)
            && ItemIdentity(h, Ref(0), [key]) == ItemIdentity(h, Ref(1), [key])
            && ItemWarnings(h, Ref(0), [key], []) == ItemWarnings(h, Ref(1), [key], []) == []
  {
    var h: Heap := map[0 := PlainNode([key], map[key := Prim(Function(f))]),
                       1 := PlainNode([key], map[key := Prim(Function(g))])];
    assert h[0].props == map[key := Prim(Function(f))] && h[1].props == map[key := Prim(Function(g))];
    SingleItem(h, 0, key, Prim(Function(f)), []);
    SingleItem(h, 1, key, Prim(Function(g)), []);
  }

  /** A `null` has a token of its own: it collides neither with an absent key nor with `undefined`. */
  lemma NullDoesNotDegrade(h: Heap, item: Val, key: JsString)
    requires WellFormed(h) && Shape(h, item).WithOwn?
    requires key in Shape(h, item).props && Shape(h, item).props[key] == Prim(Null)
    ensures Component(h, item, key) == EncodeScalar(Null) != MissingToken()
  {
    assert EncodeScalar(Null)[0] == Unit('z') && MissingToken()[0] == Unit('u');
  }

  /** The "no value" token is the encoding of `undefined` itself, so an absent key and `undefined` share an identity. */
  lemma MissingAndUndefinedCollide(key: JsString)
    ensures var h: Heap := map[0 := PlainNode([], map[]), 1 := PlainNode([key], map[key := Prim(Undefined)])];
            && WellFormed(h)
            && ItemIdentity(h, Ref(0), [key]) == ItemIdentity(h, Ref(1), [key])
            && ItemWarnings(h, Ref(0), [key], []) != ItemWarnings(h, Ref(1), [key], [])
  {
    var h: Heap := map[0 := PlainNode([], map[]), 1 := PlainNode([key], map[key := Prim(Undefined)])];
    assert h[0].props == map[] && h[1].props == map[key := Prim(Undefined)];
    assert Shape(h, Ref(0)) == WithOwn(map[]) && Shape(h, Ref(1)) == WithOwn(map[key := Prim(Undefined)]);
    assert Component(h, Ref(0), key) == Component(h, Ref(1), key);
    assert Components(h, Ref(0), [key]) == Components(h, Ref(1), [key]);
    assert [key][1..] == [] && [key][0] == key;
    assert |MissingKeyWarnings(map[], [key], [])| == 1 + |MissingKeyWarnings(map[], [], [])|;
    assert |MissingKeyWarnings(h[1].props, [key], [])| == 0;
  }

  /* ---- the loops ---- */

  /** One key of the loop: its part of the identity, and the warning it causes, if any. */
  method ComputeComponent(h: Heap, item: Val, key: JsString, path: seq<JsString>)
    returns (part: JsString, more: seq<Warning>)
    requires WellFormed(h)
    ensures part == Component(h, item, key)
    ensures more == if Shape(h, item).WithOwn? && key !in Shape(h, item).props
                    then [Warning(path + [key], MissingKey)] else []
  {
    var shape := Shape(h, item);
    part, more := MissingToken(), [];
    if shape.WithOwn? {
      if key in shape.props {
        var text := Canonicalize(h, shape.props[key]);
        part := if text.None? then MissingToken() else text.value;
      } else {
        more := [Warning(path + [key], MissingKey)];
      }
    }
  }

  lemma {:induction false} MissingSnoc(props: map<JsString, Val>, keys: seq<JsString>, path: seq<JsString>, n: nat)
    requires n < |keys|
    ensures MissingKeyWarnings(props, keys[..n + 1], path)
         == MissingKeyWarnings(props, keys[..n], path)
            + if keys[n] in props then [] else [Warning(path + [keys[n]], MissingKey)]
  {
    if n == 0 {
      assert keys[..1][1..] == [] && keys[..1][0] == keys[0];
    } else {
      assert keys[..n + 1][0] == keys[0] && keys[..n + 1][1..] == keys[1..][..n];
      assert keys[..n][0] == keys[0] && keys[..n][1..] == keys[1..][..n - 1];
      MissingSnoc(props, keys[1..], path, n - 1);
      var first := if keys[0] in props then [] else [Warning(path + [keys[0]], MissingKey)];
      var middle := MissingKeyWarnings(props, keys[1..][..n - 1], path);
      var last := if keys[n] in props then [] else [Warning(path + [keys[n]], MissingKey)];
      assert first + (middle + last) == (first + middle) + last;
    }
  }

  /** The identity and the warnings after the first `n` keys. */
  ghost function JoinedUpTo(h: Heap, item: Val, keys: seq<JsString>, n: nat): JsString
    requires WellFormed(h) && n <= |keys|
  {
    Concat(Components(h, item, keys)[..n])
  }

  ghost function WarningsUpTo(h: Heap, item: Val, keys: seq<JsString>, path: seq<JsString>, n: nat): seq<Warning>
    requires n <= |keys|
  {
    ItemWarnings(h, item, keys[..n], path)
  }

  lemma OneMoreKey(h: Heap, item: Val, keys: seq<JsString>, path: seq<JsString>, n: nat)
    requires WellFormed(h) && n < |keys|
    ensures JoinedUpTo(h, item, keys, n + 1) == JoinedUpTo(h, item, keys, n) + Component(h, item, keys[n])
    ensures WarningsUpTo(h, item, keys, path, n + 1)
         == WarningsUpTo(h, item, keys, path, n)
            + if Shape(h, item).WithOwn? && keys[n] !in Shape(h, item).props
              then [Warning(path + [keys[n]], MissingKey)] else []
  {
    var parts := Components(h, item, keys);
    assert parts[..n + 1] == parts[..n] + [parts[n]];
    ConcatSnoc(parts[..n], parts[n]);
    if Shape(h, item).WithOwn? { MissingSnoc(Shape(h, item).props, keys, path, n); }
  }

  method ComputeItemIdentity(h: Heap, item: Val, keys: seq<JsString>, path: seq<JsString>)
    returns (joined: JsString, warnings: seq<Warning>)
    requires WellFormed(h)
    ensures joined == ItemIdentity(h, item, keys)
    ensures warnings == ItemWarnings(h, item, keys, path)
  {
    assert keys[..|keys|] == keys && Components(h, item, keys)[..|keys|] == Components(h, item, keys);
    joined, warnings := [], if Shape(h, item).Malformed? then [Warning(path, MalformedItem)] else [];
    for n := 0 to |keys|
      invariant joined == JoinedUpTo(h, item, keys, n)
      invariant warnings == WarningsUpTo(h, item, keys, path, n)
    {
      var part, more := ComputeComponent(h, item, keys[n], path);
      OneMoreKey(h, item, keys, path, n);
      joined, warnings := joined + part, warnings + more;
    }
  }

  datatype Touched = All | Only(identities: set<JsString>)

  predicate IsTouched(touched: Touched, key: JsString) {
    touched.All? || key in touched.identities
  }

  function Index(i: nat): JsString {
    Digits(i)
  }

  ghost function Identities(h: Heap, items: seq<Val>, keys: seq<JsString>): seq<JsString>
    requires WellFormed(h)
  {
    seq(|items|, i requires 0 <= i < |items| => ItemIdentity(h, items[i], keys))
  }

  /** An identity the operation did not touch and that has a previous entry keeps it. */
  predicate Keeps<T>(prevInfo: Option<map<JsString, T>>, touched: Touched, key: JsString) {
    !IsTouched(touched, key) && prevInfo.Some? && key in prevInfo.value
  }

  function InfoFor<T>(
      prevInfo: Option<map<JsString, T>>, item: Val, key: JsString, touched: Touched,
      makeInfoFor: (Val, JsString) -> T): T
  {
    if Keeps(prevInfo, touched, key) then prevInfo.value[key] else makeInfoFor(item, key)
  }

  ghost function Reconciled<T>(
      prevInfo: Option<map<JsString, T>>, items: seq<Val>, ids: seq<JsString>,
      touched: Touched, makeInfoFor: (Val, JsString) -> T): map<JsString, T>
    requires |items| == |ids|
  {
    if items == [] then map[]
    else
      var n := |items| - 1;
      Reconciled(prevInfo, items[..n], ids[..n], touched, makeInfoFor)
        [ids[n] := InfoFor(prevInfo, items[n], ids[n], touched, makeInfoFor)]
  }

  /** The warnings of all items, in order; an identity seen before adds one more. */
  ghost function AllWarnings(h: Heap, items: seq<Val>, keys: seq<JsString>, ids: seq<JsString>): seq<Warning>
    requires |items| == |ids|
  {
    if items == [] then []
    else
      var n := |items| - 1;
      AllWarnings(h, items[..n], keys, ids[..n])
      + ItemWarnings(h, items[n], keys, [Index(n)])
      + if ids[n] in ids[..n] then [Warning([Index(n)], DuplicateIdentity)] else []
  }

  /** `i` is the last item with identity `key`. */
  ghost predicate LastWith(ids: seq<JsString>, key: JsString, i: nat) {
    i < |ids| && ids[i] == key && key !in ids[i + 1..]
  }

  lemma {:induction false} ReconciledKeys<T>(
      prevInfo: Option<map<JsString, T>>, items: seq<Val>, ids: seq<JsString>,
      touched: Touched, makeInfoFor: (Val, JsString) -> T)
    requires |items| == |ids|
    ensures forall key :: key in Reconciled(prevInfo, items, ids, touched, makeInfoFor) <==> key in ids
  {
    if items != [] {
      var n := |items| - 1;
      ReconciledKeys(prevInfo, items[..n], ids[..n], touched, makeInfoFor);
      assert ids == ids[..n] + [ids[n]];
    }
  }

  /**
   * The reconciled map has exactly the identities of the new items as its keys. An untouched identity with a
   * previous entry keeps that entry; any other is made from the LAST item that has the identity.
   */
  lemma {:induction false} ReconciledMeaning<T>(
      prevInfo: Option<map<JsString, T>>, items: seq<Val>, ids: seq<JsString>,
      touched: Touched, makeInfoFor: (Val, JsString) -> T, key: JsString, i: nat)
    requires |items| == |ids| && LastWith(ids, key, i)
    ensures key in Reconciled(prevInfo, items, ids, touched, makeInfoFor)
    ensures Reconciled(prevInfo, items, ids, touched, makeInfoFor)[key]
         == if !(touched.All? || key in touched.identities) && prevInfo.Some? && key in prevInfo.value
            then prevInfo.value[key] else makeInfoFor(items[i], key)
  {
    var n := |items| - 1;
    if i < n {
      assert ids[i + 1..] == ids[..n][i + 1..] + [ids[n]];
      ReconciledMeaning(prevInfo, items[..n], ids[..n], touched, makeInfoFor, key, i);
    }
  }

  /** An item is reported as a duplicate exactly when an item before it has its identity. */
  lemma {:induction false} DuplicatesAreRecordedIff(
      h: Heap, items: seq<Val>, keys: seq<JsString>, ids: seq<JsString>, i: nat)
    requires |items| == |ids|
    ensures Warning([Index(i)], DuplicateIdentity) in AllWarnings(h, items, keys, ids)
       <==> i < |ids| && ids[i] in ids[..i]
  {
    if items != [] {
      var n := |items| - 1;
      DuplicatesAreRecordedIff(h, items[..n], keys, ids[..n], i);
      assert i < n ==> ids[..n][..i] == ids[..i];
      if Shape(h, items[n]).WithOwn? { OnlyMissingIsRecorded(Shape(h, items[n]).props, keys, [Index(n)]); }
      if Index(i) == Index(n) {
        ReadDigits(i, [COLON]);
        ReadDigits(n, [COLON]);
        assert i == n;
      }
    }
  }

  lemma PrefixLaws<T>(
      h: Heap, prevInfo: Option<map<JsString, T>>, items: seq<Val>, keys: seq<JsString>, ids: seq<JsString>,
      touched: Touched, makeInfoFor: (Val, JsString) -> T, n: nat)
    requires n < |items| == |ids|
    ensures Reconciled(prevInfo, items[..n + 1], ids[..n + 1], touched, makeInfoFor)
         == Reconciled(prevInfo, items[..n], ids[..n], touched, makeInfoFor)
              [ids[n] := InfoFor(prevInfo, items[n], ids[n], touched, makeInfoFor)]
    ensures AllWarnings(h, items[..n + 1], keys, ids[..n + 1])
         == AllWarnings(h, items[..n], keys, ids[..n]) + ItemWarnings(h, items[n], keys, [Index(n)])
            + if ids[n] in ids[..n] then [Warning([Index(n)], DuplicateIdentity)] else []
    ensures ids[..n + 1] == ids[..n] + [ids[n]]
  {
    assert items[..n + 1][..n] == items[..n] && ids[..n + 1][..n] == ids[..n];
  }

  method ReconcileArrayInfo<T>(
      h: Heap, prevInfo: Option<map<JsString, T>>, nextItems: seq<Val>, keys: seq<JsString>,
      touched: Touched, makeInfoFor: (Val, JsString) -> T)
    returns (info: map<JsString, T>, warnings: seq<Warning>)
    requires WellFormed(h)
    ensures info == Reconciled(prevInfo, nextItems, Identities(h, nextItems, keys), touched, makeInfoFor)
    ensures info.Keys == set id | id in Identities(h, nextItems, keys)
    ensures warnings == AllWarnings(h, nextItems, keys, Identities(h, nextItems, keys))
  {
    info, warnings := map[], [];
    var seenKeys: set<JsString> := {};
    ghost var ids := Identities(h, nextItems, keys);
    for n := 0 to |nextItems|
      invariant forall key :: key in seenKeys <==> key in ids[..n]
      invariant info == Reconciled(prevInfo, nextItems[..n], ids[..n], touched, makeInfoFor)
      invariant warnings == AllWarnings(h, nextItems[..n], keys, ids[..n])
    {
      var key, more := ComputeItemIdentity(h, nextItems[n], keys, [Index(n)]);
      PrefixLaws(h, prevInfo, nextItems, keys, ids, touched, makeInfoFor, n);
      warnings := warnings + more + if key in seenKeys then [Warning([Index(n)], DuplicateIdentity)] else [];
      seenKeys := seenKeys + {key};
      var kept := Keeps(prevInfo, touched, key);
      info := info[key := if kept then prevInfo.value[key] else makeInfoFor(nextItems[n], key)];
    }
    assert ids[..|nextItems|] == ids && nextItems[..|nextItems|] == nextItems;
    ReconciledKeys(prevInfo, nextItems, ids, touched, makeInfoFor);
  }
}
