/**
 * Canonical encoding of runtime values: every value becomes one self-delimiting atom
 * `<tag><length>:<payload>`, and composite values concatenate the atoms of their parts.
 *
 * Runtime values form a graph of heap nodes, possibly cyclic. `Tree` is the key-sorted normal form a finite
 * part of that graph denotes. The encoder walks the graph with its cycle and depth guards; the results below
 * say which graphs it accepts, that its output depends on the denoted tree alone, and that a decoder gets
 * the tree back from any string that starts with its encoding.
 */
module Canonical {
  import opened Options
  import opened Text

  /**
   * Values that are not walked. `Number` stands for a finite number by its `String()` text (so +0 and -0
   * coincide), `Date`, `Url` and `RegExp` for the built-in objects by their stable text.
   */
  datatype Scalar =
    | Undefined
    | Null
    | Str(s: JsString)
    | Boolean(b: bool)
    | BigInt(n: int)
    | Number(text: JsString)
    | NaN
    | PositiveInfinity
    | NegativeInfinity
    | Date(iso: JsString)
    | InvalidDate
    | Url(href: JsString)
    | RegExp(source: JsString)
    | Function(fid: nat)
    | Symbol(sid: nat)

  datatype Val = Prim(p: Scalar) | Ref(r: nat)

  /** `own` lists the own enumerable string keys in insertion order; an instance here has no `toJSON`. */
  datatype Node =
    | ArrayNode(items: seq<Val>)
    | PlainNode(own: seq<JsString>, props: map<JsString, Val>)
    | InstanceNode(own: seq<JsString>, props: map<JsString, Val>)

  type Heap = map<nat, Node>

  ghost predicate WellFormed(h: Heap) {
    forall r | r in h && !h[r].ArrayNode? ::
      Distinct(h[r].own) && forall k :: k in h[r].own <==> k in h[r].props
  }

  const MAX_DEPTH := 200
  const UNSAFE_KEYS := {Js("__proto__"), Js("constructor"), Js("prototype")}

  /* ---- trees ---- */

  datatype Prop = Prop(key: JsString, value: Tree)
  datatype Tree = Leaf(p: Scalar) | List(items: seq<Tree>) | Record(entries: seq<Prop>)

  predicate Supported(p: Scalar) {
    !p.InvalidDate? && !p.Function? && !p.Symbol?
  }

  function KeysOf(entries: seq<Prop>): seq<JsString> {
    seq(|entries|, i requires 0 <= i < |entries| => entries[i].key)
  }

  predicate Safe(keys: seq<JsString>) {
    forall k | k in keys :: k !in UNSAFE_KEYS
  }

  /** `v` unfolds, in heap `h`, to exactly the tree `t`. No guard, no bound: a cyclic value denotes no tree. */
  ghost predicate Denotes(h: Heap, v: Val, t: Tree)
    decreases t
  {
    match t
    case Leaf(p) => v == Prim(p) && Supported(p)
    case List(items) =>
      && v.Ref? && v.r in h && h[v.r].ArrayNode? && |h[v.r].items| == |items|
      && forall i | 0 <= i < |items| :: Denotes(h, h[v.r].items[i], items[i])
    case Record(entries) =>
      && v.Ref? && v.r in h && h[v.r].PlainNode?
      && SortKeys(h[v.r].own) == KeysOf(entries)
      && Safe(h[v.r].own)
      && forall i | 0 <= i < |entries| ::
        entries[i].key in h[v.r].props && Denotes(h, h[v.r].props[entries[i].key], entries[i].value)
  }

  /** No node of `t` lies deeper than MAX_DEPTH when its root is at `depth`. */
  ghost predicate Fits(t: Tree, depth: nat)
    decreases t
  {
    && depth <= MAX_DEPTH
    && match t
       case Leaf(_) => true
       case List(items) => forall i | 0 <= i < |items| :: Fits(items[i], depth + 1)
       case Record(entries) => forall i | 0 <= i < |entries| :: Fits(entries[i].value, depth + 1)
  }

  /** What a value denotes is unique: equal results mean structural equality. */
  lemma {:induction false} DenotesUnique(h: Heap, v: Val, t1: Tree, t2: Tree)
    requires Denotes(h, v, t1) && Denotes(h, v, t2)
    ensures t1 == t2
    decreases t1
  {
    match t1
    case Leaf(_) =>
    case List(items) =>
      forall i | 0 <= i < |items| ensures items[i] == t2.items[i] {
        DenotesUnique(h, h[v.r].items[i], items[i], t2.items[i]);
      }
    case Record(entries) =>
      assert |entries| == |KeysOf(entries)| == |KeysOf(t2.entries)| == |t2.entries|;
      forall i | 0 <= i < |entries| ensures entries[i] == t2.entries[i] {
        assert entries[i].key == KeysOf(entries)[i] == KeysOf(t2.entries)[i];
        DenotesUnique(h, h[v.r].props[entries[i].key], entries[i].value, t2.entries[i].value);
      }
  }

  /* ---- encoding of trees ---- */

  function Atom(tag: char, payload: JsString): JsString {
    [Unit(tag)] + Digits(|payload|) + [COLON] + payload
  }

  function IntText(n: int): JsString {
    if n < 0 then [MINUS] + Digits(-n) else Digits(n)
  }

  function EncodeScalar(p: Scalar): JsString
    requires Supported(p)
  {
    match p
    case Undefined => Atom('u', [])
    case Null => Atom('z', [])
    case Str(s) => Atom('s', s)
    case Boolean(b) => Atom('b', Js(if b then "1" else "0"))
    case BigInt(n) => Atom('i', IntText(n))
    case Date(iso) => Atom('d', iso)
    case Url(href) => Atom('l', href)
    case RegExp(source) => Atom('r', source)
    case Number(text) => Atom('n', text)
    case NaN => Atom('N', [])
    case PositiveInfinity => Atom('P', [])
    case NegativeInfinity => Atom('M', [])
  }

  ghost predicate Encodable(t: Tree) {
    match t
    case Leaf(p) => Supported(p)
    case List(items) => forall i | 0 <= i < |items| :: Encodable(items[i])
    case Record(entries) => forall i | 0 <= i < |entries| :: Encodable(entries[i].value)
  }

  ghost function Encode(t: Tree): JsString
    requires Encodable(t)
    decreases t, 0
  {
    match t
    case Leaf(p) => EncodeScalar(p)
    case List(items) => Atom('a', EncodeItems(items))
    case Record(entries) => Atom('o', EncodeEntries(entries))
  }

  ghost function EncodeItems(items: seq<Tree>): JsString
    requires forall i | 0 <= i < |items| :: Encodable(items[i])
    decreases items, 1
  {
    if items == [] then [] else Encode(items[0]) + EncodeItems(items[1..])
  }

  ghost function EncodeEntries(entries: seq<Prop>): JsString
    requires forall i | 0 <= i < |entries| :: Encodable(entries[i].value)
    decreases entries, 1
  {
    if entries == [] then []
    else Atom('k', entries[0].key) + Encode(entries[0].value) + EncodeEntries(entries[1..])
  }

  lemma {:induction false} DenotedEncodable(h: Heap, v: Val, t: Tree)
    requires Denotes(h, v, t)
    ensures Encodable(t)
    decreases t
  {
    match t
    case Leaf(_) =>
    case List(items) =>
      forall i | 0 <= i < |items| ensures Encodable(items[i]) {
        DenotedEncodable(h, h[v.r].items[i], items[i]);
      }
    case Record(entries) =>
      forall i | 0 <= i < |entries| ensures Encodable(entries[i].value) {
        DenotedEncodable(h, h[v.r].props[entries[i].key], entries[i].value);
      }
  }

  /* ---- decoding ---- */

  datatype Token = Token(tag: CodeUnit, payload: JsString, rest: JsString)

  /** Splits the first atom off `s`. */
  function Split(s: JsString): (r: Option<Token>)
    ensures r.Some? ==> |r.value.payload| < |s| && |r.value.rest| < |s|
  {
    if s == [] then None
    else
      match ReadNumber(s[1..], 0)
      case None => None
      case Some((n, after)) =>
        if n <= |after| then Some(Token(s[0], after[..n], after[n..])) else None
  }

  function Signed(negative: bool, r: Option<(nat, JsString)>): Option<int> {
    if r.None? then None
    else if negative then Some(0 - r.value.0)
    else Some(r.value.0)
  }

  function DecodeInt(text: JsString): Option<int> {
    if text != [] && text[0] == MINUS then Signed(true, ReadNumber(text[1..] + [COLON], 0))
    else Signed(false, ReadNumber(text + [COLON], 0))
  }

  function DecodeScalar(tag: CodeUnit, p: JsString): Option<Scalar> {
    if tag == Unit('u') then Some(Undefined)
    else if tag == Unit('z') then Some(Null)
    else if tag == Unit('s') then Some(Str(p))
    else if tag == Unit('b') then Some(Boolean(p == Js("1")))
    else if tag == Unit('i') then match DecodeInt(p) { case None => None case Some(n) => Some(BigInt(n)) }
    else if tag == Unit('n') then Some(Number(p))
    else if tag == Unit('N') then Some(NaN)
    else if tag == Unit('P') then Some(PositiveInfinity)
    else if tag == Unit('M') then Some(NegativeInfinity)
    else if tag == Unit('d') then Some(Date(p))
    else if tag == Unit('l') then Some(Url(p))
    else if tag == Unit('r') then Some(RegExp(p))
    else None
  }

  function Decode(s: JsString): (r: Option<(Tree, JsString)>)
    ensures r.Some? ==> |r.value.1| < |s|
    decreases |s|, 0
  {
    match Split(s)
    case None => None
    case Some(Token(tag, payload, rest)) =>
      if tag == Unit('a') then
        match DecodeItems(payload) case None => None case Some(items) => Some((List(items), rest))
      else if tag == Unit('o') then
        match DecodeEntries(payload) case None => None case Some(entries) => Some((Record(entries), rest))
      else
        match DecodeScalar(tag, payload) case None => None case Some(p) => Some((Leaf(p), rest))
  }

  function DecodeItems(s: JsString): Option<seq<Tree>>
    decreases |s|, 1
  {
    if s == [] then Some([])
    else
      match Decode(s)
      case None => None
      case Some((t, rest)) =>
        match DecodeItems(rest) case None => None case Some(items) => Some([t] + items)
  }

  function DecodeEntries(s: JsString): Option<seq<Prop>>
    decreases |s|, 1
  {
    if s == [] then Some([])
    else
      match Split(s)
      case None => None
      case Some(Token(tag, key, after)) =>
        if tag != Unit('k') then None
        else
          match Decode(after)
          case None => None
          case Some((t, rest)) =>
            match DecodeEntries(rest) case None => None case Some(entries) => Some([Prop(key, t)] + entries)
  }

  lemma SplitAtom(tag: char, payload: JsString, rest: JsString)
    ensures Split(Atom(tag, payload) + rest) == Some(Token(Unit(tag), payload, rest))
  {
    var s := Atom(tag, payload) + rest;
    var after := [COLON] + payload + rest;
    assert s[1..] == Digits(|payload|) + after;
    ReadDigits(|payload|, after);
    assert after[1..] == payload + rest;
    assert (payload + rest)[..|payload|] == payload;
    assert (payload + rest)[|payload|..] == rest;
  }

  lemma DecodeIntText(n: int)
    ensures DecodeInt(IntText(n)) == Some(n)
  {
    var m: nat := if n < 0 then -n else n;
    ReadDigits(m, [COLON]);
    DigitsNotMinus(m);
    if n < 0 {
      assert IntText(n)[1..] == Digits(m);
    }
  }

  lemma {:induction false} DigitsNotMinus(n: nat)
    ensures Digits(n) != [] && IsDigit(Digits(n)[0])
  {
    if n >= 10 { DigitsNotMinus(n / 10); }
  }

  lemma ScalarAtom(p: Scalar) returns (tag: char, payload: JsString)
    requires Supported(p)
    ensures EncodeScalar(p) == Atom(tag, payload)
    ensures Unit(tag) != Unit('a') && Unit(tag) != Unit('o')
    ensures DecodeScalar(Unit(tag), payload) == Some(p)
  {
    match p
    case Undefined => tag, payload := 'u', [];
    case Null => tag, payload := 'z', [];
    case Str(s) => tag, payload := 's', s;
    case Boolean(b) =>
      tag, payload := 'b', Js(if b then "1" else "0");
      assert Js("0")[0] == Unit('0') && Js("1")[0] == Unit('1');
    case BigInt(n) =>
      tag, payload := 'i', IntText(n);
      DecodeIntText(n);
    case Number(text) => tag, payload := 'n', text;
    case NaN => tag, payload := 'N', [];
    case PositiveInfinity => tag, payload := 'P', [];
    case NegativeInfinity => tag, payload := 'M', [];
    case Date(iso) => tag, payload := 'd', iso;
    case Url(href) => tag, payload := 'l', href;
    case RegExp(source) => tag, payload := 'r', source;
  }

  lemma DecodeScalarAtom(p: Scalar, rest: JsString)
    requires Supported(p)
    ensures Decode(EncodeScalar(p) + rest) == Some((Leaf(p), rest))
  {
    var tag, payload := ScalarAtom(p);
    SplitAtom(tag, payload, rest);
  }

  /** Unique decodability: the tree comes back from any string that starts with its encoding. */
  lemma {:induction false} DecodeEncode(t: Tree, rest: JsString)
    requires Encodable(t)
    ensures Decode(Encode(t) + rest) == Some((t, rest))
    decreases t, 0
  {
    match t
    case Leaf(p) => DecodeScalarAtom(p, rest);
    case List(items) =>
      DecodeEncodeItems(items);
      DecodeListAtom(items, EncodeItems(items), rest);
    case Record(entries) =>
      DecodeEncodeEntries(entries);
      DecodeRecordAtom(entries, EncodeEntries(entries), rest);
  }

  lemma DecodeListAtom(items: seq<Tree>, payload: JsString, rest: JsString)
    requires DecodeItems(payload) == Some(items)
    ensures Decode(Atom('a', payload) + rest) == Some((List(items), rest))
  {
    SplitAtom('a', payload, rest);
    assert Split(Atom('a', payload) + rest).value == Token(Unit('a'), payload, rest);
  }

  lemma DecodeRecordAtom(entries: seq<Prop>, payload: JsString, rest: JsString)
    requires DecodeEntries(payload) == Some(entries)
    ensures Decode(Atom('o', payload) + rest) == Some((Record(entries), rest))
  {
    SplitAtom('o', payload, rest);
    assert Unit('a') == 97 && Unit('o') == 111;
    assert Split(Atom('o', payload) + rest).value == Token(Unit('o'), payload, rest);
  }

  lemma {:induction false} DecodeEncodeItems(items: seq<Tree>)
    requires forall i | 0 <= i < |items| :: Encodable(items[i])
    ensures DecodeItems(EncodeItems(items)) == Some(items)
    decreases items, 1
  {
    if items != [] {
      DecodeEncode(items[0], EncodeItems(items[1..]));
      DecodeEncodeItems(items[1..]);
      assert items == [items[0]] + items[1..];
    }
  }

  lemma {:induction false} DecodeEncodeEntries(entries: seq<Prop>)
    requires forall i | 0 <= i < |entries| :: Encodable(entries[i].value)
    ensures DecodeEntries(EncodeEntries(entries)) == Some(entries)
    decreases entries, 1
  {
    if entries != [] {
      var Prop(key, value) := entries[0];
      var tail := EncodeEntries(entries[1..]);
      assert EncodeEntries(entries) == Atom('k', key) + (Encode(value) + tail);
      assert Split(EncodeEntries(entries)) == Some(Token(Unit('k'), key, Encode(value) + tail)) by {
        SplitAtom('k', key, Encode(value) + tail);
      }
      assert Decode(Encode(value) + tail) == Some((value, tail)) by { DecodeEncode(value, tail); }
      DecodeEncodeEntries(entries[1..]);
      assert entries == [Prop(key, value)] + entries[1..];
    }
  }

  /** No encoding is a proper prefix of another, and none is shared by two trees. */
  lemma EncodePrefixFree(t1: Tree, rest1: JsString, t2: Tree, rest2: JsString)
    requires Encodable(t1) && Encodable(t2)
    requires Encode(t1) + rest1 == Encode(t2) + rest2
    ensures t1 == t2 && rest1 == rest2
  {
    DecodeEncode(t1, rest1);
    DecodeEncode(t2, rest2);
  }

  /* ---- the encoder over the heap ---- */

  function CanonScalar(p: Scalar): Option<JsString> {
    if Supported(p) then Some(EncodeScalar(p)) else None
  }

  /** `canonicalizeInner` and `canonicalizeObject`: the guarded walk. */
  ghost function Canon(h: Heap, v: Val, seen: set<nat>, depth: nat): Option<JsString>
    requires WellFormed(h)
    requires depth <= MAX_DEPTH + 1
    decreases MAX_DEPTH + 1 - depth, 0
  {
    if depth > MAX_DEPTH then None
    else if v.Prim? then CanonScalar(v.p)
    else if v.r !in h || v.r in seen then None
    else
      match h[v.r]
      case ArrayNode(items) => Wrap('a', CanonItems(h, items, seen + {v.r}, depth + 1))
      case InstanceNode(_, _) => None
      case PlainNode(own, props) =>
        if !Safe(own) then None
        else
          SortKeysSorts(own);
          Wrap('o', CanonEntries(h, SortKeys(own), props, seen + {v.r}, depth + 1))
  }

  function Wrap(tag: char, payload: Option<JsString>): Option<JsString> {
    match payload case None => None case Some(p) => Some(Atom(tag, p))
  }

  function Joined(head: Option<JsString>, tail: Option<JsString>): Option<JsString> {
    if head.Some? && tail.Some? then Some(head.value + tail.value) else None
  }

  ghost function CanonItems(h: Heap, items: seq<Val>, seen: set<nat>, depth: nat): Option<JsString>
    requires WellFormed(h)
    requires depth <= MAX_DEPTH + 1
    decreases MAX_DEPTH + 1 - depth, 1 + |items|
  {
    if items == [] then Some([])
    else Joined(Canon(h, items[0], seen, depth), CanonItems(h, items[1..], seen, depth))
  }

  ghost function CanonEntries(h: Heap, keys: seq<JsString>, props: map<JsString, Val>, seen: set<nat>, depth: nat)
    : Option<JsString>
    requires WellFormed(h)
    requires depth <= MAX_DEPTH + 1
    requires forall k | k in keys :: k in props
    decreases MAX_DEPTH + 1 - depth, 1 + |keys|
  {
    if keys == [] then Some([])
    else
      Joined(Joined(Some(Atom('k', keys[0])), Canon(h, props[keys[0]], seen, depth)),
             CanonEntries(h, keys[1..], props, seen, depth))
  }

  /* ---- soundness: an encoding is the encoding of the denoted tree ---- */

  /** A successful encoding is the encoding of a tree the value denotes, within the depth bound. */
  lemma {:induction false} CanonSound(h: Heap, v: Val, seen: set<nat>, depth: nat) returns (t: Tree)
    requires WellFormed(h) && depth <= MAX_DEPTH + 1
    requires Canon(h, v, seen, depth).Some?
    ensures Denotes(h, v, t) && Fits(t, depth) && Encodable(t)
    ensures Canon(h, v, seen, depth) == Some(Encode(t))
    decreases MAX_DEPTH + 1 - depth, 0
  {
    if v.Prim? {
      t := Leaf(v.p);
    } else {
      match h[v.r]
      case ArrayNode(items) =>
        var ts := CanonItemsSound(h, items, seen + {v.r}, depth + 1);
        t := List(ts);
      case PlainNode(own, props) =>
        SortKeysSorts(own);
        var es := CanonEntriesSound(h, SortKeys(own), props, seen + {v.r}, depth + 1);
        t := Record(es);
    }
  }

  lemma {:induction false} CanonItemsSound(h: Heap, items: seq<Val>, seen: set<nat>, depth: nat)
    returns (ts: seq<Tree>)
    requires WellFormed(h) && depth <= MAX_DEPTH + 1
    requires CanonItems(h, items, seen, depth).Some?
    ensures |ts| == |items|
    ensures forall i | 0 <= i < |ts| :: Denotes(h, items[i], ts[i]) && Fits(ts[i], depth) && Encodable(ts[i])
    ensures CanonItems(h, items, seen, depth) == Some(EncodeItems(ts))
    decreases MAX_DEPTH + 1 - depth, 1 + |items|
  {
    if items == [] {
      ts := [];
    } else {
      var t := CanonSound(h, items[0], seen, depth);
      var rest := CanonItemsSound(h, items[1..], seen, depth);
      ts := [t] + rest;
      assert ts[1..] == rest;
    }
  }

  lemma {:induction false} CanonEntriesSound(
      h: Heap, keys: seq<JsString>, props: map<JsString, Val>, seen: set<nat>, depth: nat)
    returns (es: seq<Prop>)
    requires WellFormed(h) && depth <= MAX_DEPTH + 1
    requires forall k | k in keys :: k in props
    requires CanonEntries(h, keys, props, seen, depth).Some?
    ensures KeysOf(es) == keys
    ensures forall i | 0 <= i < |es| ::
      es[i].key in props && Denotes(h, props[es[i].key], es[i].value) && Fits(es[i].value, depth)
      && Encodable(es[i].value)
    ensures CanonEntries(h, keys, props, seen, depth) == Some(EncodeEntries(es))
    decreases MAX_DEPTH + 1 - depth, 1 + |keys|
  {
    if keys == [] {
      es := [];
    } else {
      var t := CanonSound(h, props[keys[0]], seen, depth);
      var rest := CanonEntriesSound(h, keys[1..], props, seen, depth);
      es := [Prop(keys[0], t)] + rest;
      assert es[1..] == rest;
    }
  }

  /* ---- completeness: the cycle guard rejects nothing the depth guard would accept ---- */

  /** Every node being visited denotes a tree that properly contains `t`. */
  ghost predicate Above(h: Heap, seen: set<nat>, t: Tree) {
    forall x | x in seen :: exists big: Tree :: Denotes(h, Ref(x), big) && t < big
  }

  /**
   * Whatever denotes a tree within the depth bound is encoded, whatever nodes are being visited above it: a
   * guard can only fire on a node that contains itself, and such a node denotes no tree.
   */
  lemma {:induction false} CanonComplete(h: Heap, v: Val, seen: set<nat>, depth: nat, t: Tree)
    requires WellFormed(h) && depth <= MAX_DEPTH
    requires Denotes(h, v, t) && Fits(t, depth) && Encodable(t) && Above(h, seen, t)
    ensures Canon(h, v, seen, depth) == Some(Encode(t))
    decreases t, 3
  {
    if v.Ref? {
      if v.r in seen {
        var big: Tree :| Denotes(h, Ref(v.r), big) && t < big;
        DenotesUnique(h, v, t, big);
        assert false;
      }
      match t
      case List(_) => ListComplete(h, v.r, seen, depth, t);
      case Record(_) => RecordComplete(h, v.r, seen, depth, t);
    }
  }

  lemma {:induction false} ListComplete(h: Heap, r: nat, seen: set<nat>, depth: nat, t: Tree)
    requires WellFormed(h) && depth <= MAX_DEPTH && t.List? && r !in seen
    requires Denotes(h, Ref(r), t) && Fits(t, depth) && Encodable(t) && Above(h, seen, t)
    ensures Canon(h, Ref(r), seen, depth) == Some(Encode(t))
    decreases t, 2
  {
    var items := t.items;
    forall i | 0 <= i < |items| ensures Above(h, seen + {r}, items[i]) {
      PartsAreAbove(h, r, seen, t, items[i]);
    }
    CanonItemsComplete(h, h[r].items, seen + {r}, depth + 1, items);
  }

  lemma {:induction false} RecordComplete(h: Heap, r: nat, seen: set<nat>, depth: nat, t: Tree)
    requires WellFormed(h) && depth <= MAX_DEPTH && t.Record? && r !in seen
    requires Denotes(h, Ref(r), t) && Fits(t, depth) && Encodable(t) && Above(h, seen, t)
    ensures Canon(h, Ref(r), seen, depth) == Some(Encode(t))
    decreases t, 2
  {
    var entries := t.entries;
    SortKeysSorts(h[r].own);
    EntriesAreAbove(h, r, seen, t);
    CanonEntriesComplete(h, SortKeys(h[r].own), h[r].props, seen + {r}, depth + 1, entries);
    CanonOfPlainNode(h, r, seen, depth);
  }

  lemma EntriesAreAbove(h: Heap, r: nat, seen: set<nat>, t: Tree)
    requires t.Record? && Denotes(h, Ref(r), t) && Above(h, seen, t)
    ensures forall i | 0 <= i < |t.entries| :: Above(h, seen + {r}, t.entries[i].value)
  {
    forall i | 0 <= i < |t.entries| ensures Above(h, seen + {r}, t.entries[i].value) {
      assert t.entries[i].value < t.entries[i];
      assert t.entries[i] < t;
      PartsAreAbove(h, r, seen, t, t.entries[i].value);
    }
  }

  lemma CanonOfPlainNode(h: Heap, r: nat, seen: set<nat>, depth: nat)
    requires WellFormed(h) && depth <= MAX_DEPTH && r in h && h[r].PlainNode? && r !in seen && Safe(h[r].own)
    requires forall k | k in SortKeys(h[r].own) :: k in h[r].props
    ensures Canon(h, Ref(r), seen, depth)
         == Wrap('o', CanonEntries(h, SortKeys(h[r].own), h[r].props, seen + {r}, depth + 1))
  {
  }

  lemma PartsAreAbove(h: Heap, r: nat, seen: set<nat>, t: Tree, part: Tree)
    requires Denotes(h, Ref(r), t) && Above(h, seen, t) && part < t
    ensures Above(h, seen + {r}, part)
  {
    forall x | x in seen + {r} ensures exists big: Tree :: Denotes(h, Ref(x), big) && part < big {
      if x == r { assert Denotes(h, Ref(x), t); }
    }
  }

  lemma {:induction false} CanonItemsComplete(h: Heap, items: seq<Val>, seen: set<nat>, depth: nat, ts: seq<Tree>)
    requires WellFormed(h) && depth <= MAX_DEPTH + 1 && |ts| == |items|
    requires forall i | 0 <= i < |ts| ::
      Denotes(h, items[i], ts[i]) && Fits(ts[i], depth) && Encodable(ts[i]) && Above(h, seen, ts[i])
    ensures CanonItems(h, items, seen, depth) == Some(EncodeItems(ts))
    decreases ts, 1
  {
    if items != [] {
      CanonComplete(h, items[0], seen, depth, ts[0]);
      CanonItemsComplete(h, items[1..], seen, depth, ts[1..]);
    }
  }

  lemma {:induction false} CanonEntriesComplete(
      h: Heap, keys: seq<JsString>, props: map<JsString, Val>, seen: set<nat>, depth: nat, es: seq<Prop>)
    requires WellFormed(h) && depth <= MAX_DEPTH + 1
    requires keys == KeysOf(es) && forall k | k in keys :: k in props
    requires forall i | 0 <= i < |es| ::
      es[i].key in props && Denotes(h, props[es[i].key], es[i].value) && Fits(es[i].value, depth)
      && Encodable(es[i].value) && Above(h, seen, es[i].value)
    ensures CanonEntries(h, keys, props, seen, depth) == Some(EncodeEntries(es))
    decreases es, 1
  {
    if es != [] {
      assert keys[0] == es[0].key && keys[1..] == KeysOf(es[1..]);
      CanonComplete(h, props[keys[0]], seen, depth, es[0].value);
      CanonEntriesComplete(h, keys[1..], props, seen, depth, es[1..]);
    }
  }

  /* ---- main results ---- */

  ghost predicate Renders(h: Heap, v: Val, t: Tree, s: JsString) {
    Denotes(h, v, t) && Fits(t, 0) && Encodable(t) && s == Encode(t)
  }

  /**
   * `canonicalize` yields `s` exactly when the value denotes a tree nested at most MAX_DEPTH deep whose encoding
   * is `s`. The right-hand side mentions no set of visited nodes: shared nodes encode as their unfolding, and
   * cyclic values, which denote no tree, are exactly what the guards add to the unsupported ones.
   */
  lemma CanonicalizeMeaning(h: Heap, v: Val, s: JsString)
    requires WellFormed(h)
    ensures Canon(h, v, {}, 0) == Some(s) <==> exists t: Tree :: Renders(h, v, t, s)
  {
    if Canon(h, v, {}, 0) == Some(s) {
      var t := CanonSound(h, v, {}, 0);
      assert Renders(h, v, t, s);
    }
    if t: Tree :| Renders(h, v, t, s) {
      CanonComplete(h, v, {}, 0, t);
    }
  }

  /**
   * Two values, each in its own heap, get the same canonical string exactly when they denote the same tree.
   */
  lemma EqualEncodingsMeanEqualValues(h1: Heap, v1: Val, t1: Tree, h2: Heap, v2: Val, t2: Tree)
    requires WellFormed(h1) && WellFormed(h2)
    requires Denotes(h1, v1, t1) && Denotes(h2, v2, t2)
    requires Canon(h1, v1, {}, 0).Some? && Canon(h2, v2, {}, 0).Some?
    ensures Canon(h1, v1, {}, 0) == Canon(h2, v2, {}, 0) <==> t1 == t2
  {
    var u1 := CanonSound(h1, v1, {}, 0);
    var u2 := CanonSound(h2, v2, {}, 0);
    DenotesUnique(h1, v1, t1, u1);
    DenotesUnique(h2, v2, t2, u2);
    if Canon(h1, v1, {}, 0) == Canon(h2, v2, {}, 0) {
      EncodePrefixFree(t1, [], t2, []);
    }
  }

  ghost predicate HasPart(h: Heap, r: nat, v: Val) {
    && r in h
    && match h[r]
       case ArrayNode(items) => v in items
       case PlainNode(own, props) => exists k | k in own :: k in props && props[k] == v
       case InstanceNode(_, _) => false
  }

  ghost predicate IsPath(h: Heap, path: seq<nat>) {
    && path != []
    && forall i | 0 <= i < |path| - 1 :: HasPart(h, path[i], Ref(path[i + 1]))
  }

  /** Following references from a denoted node leads to properly smaller trees. */
  lemma {:induction false} PathsShrink(h: Heap, path: seq<nat>, t: Tree) returns (u: Tree)
    requires WellFormed(h) && IsPath(h, path) && Denotes(h, Ref(path[0]), t)
    ensures Denotes(h, Ref(path[|path| - 1]), u)
    ensures if |path| == 1 then u == t else u < t
  {
    u := t;
    if |path| > 1 {
      var next := Ref(path[1]);
      assert HasPart(h, path[0], next);
      var child: Tree;
      match t {
        case List(items) =>
          var i :| 0 <= i < |items| && h[path[0]].items[i] == next;
          child := items[i];
        case Record(entries) =>
          var k :| k in h[path[0]].own && h[path[0]].props[k] == next;
          SortKeysSorts(h[path[0]].own);
          var i :| 0 <= i < |KeysOf(entries)| && KeysOf(entries)[i] == k;
          assert entries[i].value < entries[i] < t;
          child := entries[i].value;
      }
      u := PathsShrink(h, path[1..], child);
    }
  }

  /** A value from which a cycle can be reached is never encoded, however the cycle is entered. */
  lemma CyclesAreRejected(h: Heap, path: seq<nat>, i: nat)
    requires WellFormed(h) && IsPath(h, path) && i < |path| - 1 && path[i] == path[|path| - 1]
    ensures Canon(h, Ref(path[0]), {}, 0) == None
  {
    if Canon(h, Ref(path[0]), {}, 0).Some? {
      var t := CanonSound(h, Ref(path[0]), {}, 0);
      var atCycle := PathsShrink(h, path[..i + 1], t);
      var again := PathsShrink(h, path[i..], atCycle);
      DenotesUnique(h, Ref(path[i]), atCycle, again);
      assert false;
    }
  }

  predicate HasNoText(v: Val) {
    v.Prim? && (v.p.Function? || v.p.Symbol? || v.p.InvalidDate?)
  }

  /** A class instance, a record with a key that is not safe, or what holds a value without a text. */
  ghost predicate Refused(h: Heap, r: nat) {
    && r in h
    && match h[r]
       case ArrayNode(items) => exists v | v in items :: HasNoText(v)
       case PlainNode(own, props) =>
         || Js("__proto__") in own || Js("constructor") in own || Js("prototype") in own
         || exists k | k in own && k in props :: HasNoText(props[k])
       case InstanceNode(_, _) => true
  }

  lemma DenotedIsNotRefused(h: Heap, r: nat, t: Tree)
    requires WellFormed(h) && Denotes(h, Ref(r), t)
    ensures !Refused(h, r)
  {
    match t
    case List(items) =>
      forall v | v in h[r].items ensures !HasNoText(v) {
        var i :| 0 <= i < |items| && h[r].items[i] == v;
        assert Denotes(h, v, items[i]);
      }
    case Record(entries) =>
      SortKeysSorts(h[r].own);
      forall k | k in h[r].own && k in h[r].props ensures !HasNoText(h[r].props[k]) {
        var i :| 0 <= i < |KeysOf(entries)| && KeysOf(entries)[i] == k;
        assert Denotes(h, h[r].props[k], entries[i].value);
      }
  }

  /** A value from which such a node can be reached is never encoded. */
  lemma RefusedAreRejected(h: Heap, path: seq<nat>)
    requires WellFormed(h) && IsPath(h, path) && Refused(h, path[|path| - 1])
    ensures Canon(h, Ref(path[0]), {}, 0) == None
  {
    if Canon(h, Ref(path[0]), {}, 0).Some? {
      var t := CanonSound(h, Ref(path[0]), {}, 0);
      var u := PathsShrink(h, path, t);
      DenotedIsNotRefused(h, path[|path| - 1], u);
      assert false;
    }
  }

  /** The two heaps differ at most in the order their objects list their own keys. */
  ghost predicate SameUpToKeyOrder(h1: Heap, h2: Heap) {
    && h1.Keys == h2.Keys
    && forall r | r in h1 ::
      match h1[r]
      case ArrayNode(_) => h2[r] == h1[r]
      case PlainNode(_, props) => h2[r].PlainNode? && h2[r].props == props
      case InstanceNode(_, props) => h2[r].InstanceNode? && h2[r].props == props
  }

  lemma {:induction false} DenotesIgnoresKeyOrder(h1: Heap, h2: Heap, v: Val, t: Tree)
    requires WellFormed(h1) && WellFormed(h2) && SameUpToKeyOrder(h1, h2)
    ensures Denotes(h1, v, t) <==> Denotes(h2, v, t)
    decreases t
  {
    match t
    case Leaf(_) =>
    case List(items) =>
      if v.Ref? && v.r in h1 && h1[v.r].ArrayNode? && |h1[v.r].items| == |items| {
        forall i | 0 <= i < |items|
          ensures Denotes(h1, h1[v.r].items[i], items[i]) <==> Denotes(h2, h2[v.r].items[i], items[i])
        {
          DenotesIgnoresKeyOrder(h1, h2, h1[v.r].items[i], items[i]);
        }
      }
    case Record(entries) =>
      if v.Ref? && v.r in h1 && h1[v.r].PlainNode? {
        var props := h1[v.r].props;
        SortKeysByContents(h1[v.r].own, h2[v.r].own);
        forall i | 0 <= i < |entries| && entries[i].key in props
          ensures Denotes(h1, props[entries[i].key], entries[i].value)
             <==> Denotes(h2, h2[v.r].props[entries[i].key], entries[i].value)
        {
          DenotesIgnoresKeyOrder(h1, h2, props[entries[i].key], entries[i].value);
        }
      }
  }

  /** Key order never matters, at any depth. */
  lemma CanonicalizeIgnoresKeyOrder(h1: Heap, h2: Heap, v: Val)
    requires WellFormed(h1) && WellFormed(h2) && SameUpToKeyOrder(h1, h2)
    ensures Canon(h1, v, {}, 0) == Canon(h2, v, {}, 0)
  {
    if Canon(h1, v, {}, 0).Some? {
      var t := CanonSound(h1, v, {}, 0);
      DenotesIgnoresKeyOrder(h1, h2, v, t);
      CanonComplete(h2, v, {}, 0, t);
    } else if Canon(h2, v, {}, 0).Some? {
      var t := CanonSound(h2, v, {}, 0);
      DenotesIgnoresKeyOrder(h1, h2, v, t);
      CanonComplete(h1, v, {}, 0, t);
    }
  }

  /* ---- the loops ---- */

  lemma JoinedLaws(a: JsString, b: JsString, r: Option<JsString>)
    ensures Joined(Some([]), r) == r
    ensures Joined(Some(a), Some([])) == Some(a)
    ensures Joined(Some(a), Joined(Some(b), r)) == Joined(Some(a + b), r)
  {
    if r.Some? {
      assert [] + r.value == r.value;
      assert a + (b + r.value) == (a + b) + r.value;
    }
    assert a + [] == a;
  }

  method SortedKeys(own: seq<JsString>) returns (keys: seq<JsString>)
    requires Distinct(own)
    ensures keys == SortKeys(own)
    ensures Increasing(keys) && forall k :: k in keys <==> k in own
  {
    SortKeysSorts(own);
    keys := SortKeys(own);
  }

  method CanonicalizeInner(h: Heap, v: Val, seen: set<nat>, depth: nat) returns (r: Option<JsString>)
    requires WellFormed(h) && depth <= MAX_DEPTH + 1
    ensures r == Canon(h, v, seen, depth)
    decreases MAX_DEPTH + 1 - depth, 1
  {
    if depth > MAX_DEPTH {
      return None;
    }
    if v.Prim? {
      return CanonScalar(v.p);
    }
    if v.r !in h || v.r in seen {
      return None;
    }
    if h[v.r].ArrayNode? {
      var items := h[v.r].items;
      var nextSeen := seen + {v.r};
      var payload := [];
      JoinedLaws(payload, [], CanonItems(h, items, nextSeen, depth + 1));
      assert items[0..] == items;
      for i := 0 to |items|
        invariant CanonItems(h, items, nextSeen, depth + 1)
               == Joined(Some(payload), CanonItems(h, items[i..], nextSeen, depth + 1))
      {
        var encoded := CanonicalizeInner(h, items[i], nextSeen, depth + 1);
        assert items[i..][0] == items[i] && items[i..][1..] == items[i + 1..];
        if encoded.None? {
          return None;
        }
        JoinedLaws(payload, encoded.value, CanonItems(h, items[i + 1..], nextSeen, depth + 1));
        payload := payload + encoded.value;
      }
      JoinedLaws(payload, [], None);
      return Some(Atom('a', payload));
    }
    r := CanonicalizeObject(h, v.r, seen, depth);
  }

  method CanonicalizeObject(h: Heap, ref: nat, seen: set<nat>, depth: nat) returns (r: Option<JsString>)
    requires WellFormed(h) && depth <= MAX_DEPTH
    requires ref in h && ref !in seen && !h[ref].ArrayNode?
    ensures r == Canon(h, Ref(ref), seen, depth)
    decreases MAX_DEPTH + 1 - depth, 0
  {
    if h[ref].InstanceNode? {
      return None;
    }
    var own, props := h[ref].own, h[ref].props;
    var safe := AllSafe(own);
    if !safe {
      return None;
    }
    var keys := SortedKeys(own);
    var payload := CanonicalizeEntries(h, keys, props, seen + {ref}, depth + 1);
    r := if payload.None? then None else Some(Atom('o', payload.value));
  }

  method AllSafe(own: seq<JsString>) returns (safe: bool)
    ensures safe <==> Safe(own)
  {
    for i := 0 to |own|
      invariant Safe(own[..i])
    {
      if own[i] in UNSAFE_KEYS {
        assert own[i] in own;
        return false;
      }
    }
    assert own[..|own|] == own;
    return true;
  }

  method CanonicalizeEntries(
      h: Heap, keys: seq<JsString>, props: map<JsString, Val>, nextSeen: set<nat>, depth: nat)
    returns (r: Option<JsString>)
    requires WellFormed(h) && depth <= MAX_DEPTH + 1
    requires forall k | k in keys :: k in props
    ensures r == CanonEntries(h, keys, props, nextSeen, depth)
    decreases MAX_DEPTH + 1 - depth, 2
  {
    var payload := [];
    JoinedLaws(payload, [], CanonEntries(h, keys, props, nextSeen, depth));
    assert keys[0..] == keys;
    for i := 0 to |keys|
      invariant CanonEntries(h, keys, props, nextSeen, depth)
             == Joined(Some(payload), CanonEntries(h, keys[i..], props, nextSeen, depth))
    {
      var encodedValue := CanonicalizeInner(h, props[keys[i]], nextSeen, depth);
      assert keys[i..][0] == keys[i] && keys[i..][1..] == keys[i + 1..];
      if encodedValue.None? {
        return None;
      }
      var encoded := Atom('k', keys[i]) + encodedValue.value;
      JoinedLaws(payload, encoded, CanonEntries(h, keys[i + 1..], props, nextSeen, depth));
      payload := payload + encoded;
    }
    JoinedLaws(payload, [], None);
    return Some(payload);
  }

  method Canonicalize(h: Heap, v: Val) returns (r: Option<JsString>)
    requires WellFormed(h)
    ensures r == Canon(h, v, {}, 0)
  {
    r := CanonicalizeInner(h, v, {}, 0);
  }
}
