/**
 * The bounded cache: entries in a map that keeps insertion order, oldest first; a use deletes and re-inserts. The
 * per-operation history of a capability is kept the same way.
 */
module Cache {
  import opened Options

  datatype Entry<V> = Entry(key: string, value: V)

  function Find<V>(es: seq<Entry<V>>, key: string): Option<V> {
    if es == [] then None else if es[0].key == key then Some(es[0].value) else Find(es[1..], key)
  }

  function Without<V>(es: seq<Entry<V>>, key: string): seq<Entry<V>> {
    if es == [] then [] else if es[0].key == key then Without(es[1..], key) else [es[0]] + Without(es[1..], key)
  }

  function Touch<V>(es: seq<Entry<V>>, key: string, value: V): seq<Entry<V>> {
    Without(es, key) + [Entry(key, value)]
  }

  /** The newest `cap` entries; a non-positive cap keeps none. */
  function Evict<V>(es: seq<Entry<V>>, cap: int): seq<Entry<V>> {
    if |es| <= cap then es else if cap <= 0 then [] else es[|es| - cap..]
  }

  ghost predicate DistinctKeys<V>(es: seq<Entry<V>>) {
    forall i, j :: 0 <= i < j < |es| ==> es[i].key != es[j].key
  }

  ghost predicate Has<V>(es: seq<Entry<V>>, key: string) {
    exists i | 0 <= i < |es| :: es[i].key == key
  }

  lemma {:induction false} WithoutSplit<V>(es: seq<Entry<V>>, key: string, m: nat)
    requires DistinctKeys(es) && m < |es| && es[m].key == key
    ensures Without(es, key) == es[..m] + es[m + 1..]
  {
    if m == 0 {
      WithoutNothing(es[1..], key);
    } else {
      WithoutSplit(es[1..], key, m - 1);
      assert es[0].key != key;
      assert es[1..][..m - 1] == es[1..m] && es[1..][m..] == es[m + 1..];
      assert es[..m] == [es[0]] + es[1..m];
    }
  }

  lemma {:induction false} WithoutNothing<V>(es: seq<Entry<V>>, key: string)
    requires !Has(es, key)
    ensures Without(es, key) == es
  {
    if es != [] {
      assert es[0].key != key;
      forall i | 0 <= i < |es| - 1 ensures es[1..][i].key != key { assert es[1..][i] == es[i + 1]; }
      WithoutNothing(es[1..], key);
    }
  }

  lemma {:induction false} FindAt<V>(es: seq<Entry<V>>, i: nat)
    requires DistinctKeys(es) && i < |es|
    ensures Find(es, es[i].key) == Some(es[i].value)
  {
    if i > 0 {
      assert es[1..][i - 1] == es[i];
      FindAt(es[1..], i - 1);
    }
  }

  lemma {:induction false} FindNothing<V>(es: seq<Entry<V>>, key: string)
    ensures Find(es, key).Some? <==> Has(es, key)
  {
    if es != [] {
      FindNothing(es[1..], key);
      if Has(es[1..], key) {
        var i :| 0 <= i < |es[1..]| && es[1..][i].key == key;
        assert es[i + 1].key == key;
      }
      if i :| 0 <= i < |es| && es[i].key == key {
        if i > 0 { assert es[1..][i - 1].key == key; }
      }
    }
  }

  lemma ReplacedKeepsDistinct<V>(es: seq<Entry<V>>, m: nat, n: nat, last: Entry<V>)
    requires DistinctKeys(es) && m <= n <= |es|
    requires forall i | 0 <= i < |es| && !(m <= i < n) :: es[i].key != last.key
    ensures DistinctKeys(es[..m] + es[n..] + [last])
  {
    var t := es[..m] + es[n..] + [last];
    forall i, j | 0 <= i < j < |t| ensures t[i].key != t[j].key {
      assert t[i] == es[if i < m then i else i + (n - m)];
      if j < |t| - 1 { assert t[j] == es[if j < m then j else j + (n - m)]; }
    }
  }

  /** A touch takes the entries from `m` up to `n` out -- the key's own, or none -- and appends the new one. */
  lemma TouchShape<V>(es: seq<Entry<V>>, key: string, value: V) returns (m: nat, n: nat)
    requires DistinctKeys(es)
    ensures m <= n <= |es| && n <= m + 1 && (Has(es, key) <==> n == m + 1)
    ensures m < n ==> es[m].key == key
    ensures Touch(es, key, value) == es[..m] + es[n..] + [Entry(key, value)]
    ensures forall i | 0 <= i < |es| && !(m <= i < n) :: es[i].key != key
    ensures DistinctKeys(Touch(es, key, value))
  {
    if Has(es, key) {
      m :| 0 <= m < |es| && es[m].key == key;
      n := m + 1;
      WithoutSplit(es, key, m);
    } else {
      m, n := |es|, |es|;
      WithoutNothing(es, key);
      assert es[..m] + es[n..] == es;
    }
    ReplacedKeepsDistinct(es, m, n, Entry(key, value));
  }

  lemma EvictShape<V>(es: seq<Entry<V>>, cap: int) returns (drop: nat)
    requires cap > 0
    ensures drop == (if |es| <= cap then 0 else |es| - cap) && Evict(es, cap) == es[drop..]
  {
    drop := if |es| <= cap then 0 else |es| - cap;
  }

  /* ---- runs ---- */

  datatype Op<V> = Get(key: string) | Set(key: string, value: V) | Delete(key: string) | Clear

  function Step<V>(es: seq<Entry<V>>, cap: int, op: Op<V>): seq<Entry<V>> {
    match op
    case Get(key) => if Find(es, key).None? then es else Touch(es, key, Find(es, key).value)
    case Set(key, value) => Evict(Touch(es, key, value), cap)
    case Delete(key) => Without(es, key)
    case Clear => []
  }

  function Run<V>(es: seq<Entry<V>>, cap: int, ops: seq<Op<V>>): seq<Entry<V>> {
    if ops == [] then es else Step(Run(es, cap, ops[..|ops| - 1]), cap, ops[|ops| - 1])
  }

  /** Distinct keys, within the bound. */
  ghost predicate Bounded<V>(es: seq<Entry<V>>, cap: int) {
    DistinctKeys(es) && |es| <= cap
  }

  lemma StepKeepsBounded<V>(es: seq<Entry<V>>, cap: int, op: Op<V>)
    requires cap > 0 && Bounded(es, cap)
    ensures Bounded(Step(es, cap, op), cap)
  {
    match op
    case Get(key) =>
      if Find(es, key).Some? {
        FindNothing(es, key);
        var _, _ := TouchShape(es, key, Find(es, key).value);
      }
    case Set(key, value) =>
      var _, _ := TouchShape(es, key, value);
    case Delete(key) =>
      if m :| 0 <= m < |es| && es[m].key == key {
        WithoutSplit(es, key, m);
      } else {
        WithoutNothing(es, key);
      }
    case Clear =>
  }

  lemma {:induction false} AlwaysBounded<V>(es: seq<Entry<V>>, cap: int, ops: seq<Op<V>>)
    requires cap > 0 && Bounded(es, cap)
    ensures Bounded(Run(es, cap, ops), cap)
  {
    if ops != [] {
      AlwaysBounded(es, cap, ops[..|ops| - 1]);
      StepKeepsBounded(Run(es, cap, ops[..|ops| - 1]), cap, ops[|ops| - 1]);
    }
  }

  /* ---- order is by last touch ---- */

  predicate Touches<V>(op: Op<V>, key: string) {
    (op.Get? || op.Set?) && op.key == key
  }

  /** One more than the index of the last get or set of `key`; 0 when there is none. */
  function LastTouch<V>(ops: seq<Op<V>>, key: string): nat {
    if ops == [] then 0
    else if Touches(ops[|ops| - 1], key) then |ops|
    else LastTouch(ops[..|ops| - 1], key)
  }

  ghost predicate ByLastTouch<V>(es: seq<Entry<V>>, ops: seq<Op<V>>) {
    forall i, j :: 0 <= i < j < |es| ==> LastTouch(ops, es[i].key) < LastTouch(ops, es[j].key)
  }

  lemma {:induction false} LastTouchBound<V>(ops: seq<Op<V>>, key: string)
    ensures LastTouch(ops, key) <= |ops|
  {
    if ops != [] { LastTouchBound(ops[..|ops| - 1], key); }
  }

  /** Of distinct untouched keys the order stays; the key just touched is newest. */
  lemma TouchedLast<V>(es: seq<Entry<V>>, ops: seq<Op<V>>, op: Op<V>, value: V)
    requires DistinctKeys(es) && ByLastTouch(es, ops) && (op.Get? || op.Set?)
    ensures ByLastTouch(Touch(es, op.key, value), ops + [op])
  {
    var t, all := Touch(es, op.key, value), ops + [op];
    var _, _ := TouchShape(es, op.key, value);
    assert all[..|ops|] == ops;
    forall i, j | 0 <= i < j < |t| ensures LastTouch(all, t[i].key) < LastTouch(all, t[j].key) {
      LastTouchBound(ops, t[i].key);
      assert t[i].key != op.key;
      if j < |t| - 1 { assert t[j].key != op.key; }
    }
  }

  /** After any run the entries stand in the order of their last use. */
  lemma {:induction false} OrderedByLastTouch<V>(cap: int, ops: seq<Op<V>>)
    requires cap > 0
    ensures ByLastTouch(Run([], cap, ops), ops)
  {
    if ops != [] {
      var n := |ops| - 1;
      var es, op := Run([], cap, ops[..n]), ops[n];
      OrderedByLastTouch(cap, ops[..n]);
      AlwaysBounded([], cap, ops[..n]);
      assert ops == ops[..n] + [op];
      match op
      case Get(key) =>
        if Find(es, key).Some? {
          TouchedLast(es, ops[..n], op, Find(es, key).value);
        } else {
          FindNothing(es, key);
          forall i | 0 <= i < |es| ensures LastTouch(ops, es[i].key) == LastTouch(ops[..n], es[i].key) {
            assert es[i].key != key;
          }
        }
      case Set(_, value) => TouchedLast(es, ops[..n], op, value);
      case Delete(key) =>
        if m :| 0 <= m < |es| && es[m].key == key {
          WithoutSplit(es, key, m);
        } else {
          WithoutNothing(es, key);
        }
      case Clear =>
    }
  }

  lemma EvictDropsOldest<V>(t: seq<Entry<V>>, ops: seq<Op<V>>, cap: int, out: string, kept: string)
    requires cap > 0 && ByLastTouch(t, ops) && Has(t, out)
    requires !Has(Evict(t, cap), out) && Has(Evict(t, cap), kept)
    ensures LastTouch(ops, out) < LastTouch(ops, kept)
  {
    var drop := EvictShape(t, cap);
    var after := Evict(t, cap);
    var k :| 0 <= k < |after| && after[k].key == kept;
    forall i | drop <= i < |t| ensures Has(after, t[i].key) { assert after[i - drop].key == t[i].key; }
    assert t[k + drop].key == kept;
  }

  lemma TouchKeeps<V>(es: seq<Entry<V>>, key: string, value: V, out: string)
    requires DistinctKeys(es) && Has(es, out)
    ensures Has(Touch(es, key, value), out)
  {
    var m, n := TouchShape(es, key, value);
    var t := Touch(es, key, value);
    var o :| 0 <= o < |es| && es[o].key == out;
    assert t[if out == key then |t| - 1 else if o < m then o else o - (n - m)].key == out;
  }

  /** A key that a set pushes out was last used before every key that stays. */
  lemma EvictedIsOldest<V>(cap: int, ops: seq<Op<V>>, key: string, value: V, out: string, kept: string)
    requires cap > 0
    requires Has(Run([], cap, ops), out) && !Has(Run([], cap, ops + [Set(key, value)]), out)
    requires Has(Run([], cap, ops + [Set(key, value)]), kept)
    ensures LastTouch(ops + [Set(key, value)], out) < LastTouch(ops + [Set(key, value)], kept)
  {
    var op := Set(key, value);
    var es := Run([], cap, ops);
    assert (ops + [op])[..|ops|] == ops;
    OrderedByLastTouch(cap, ops);
    AlwaysBounded([], cap, ops);
    TouchedLast(es, ops, op, value);
    var t := Touch(es, key, value);
    TouchKeeps(es, key, value, out);
    EvictDropsOldest(t, ops + [op], cap, out, kept);
  }

  /* ---- what is retained ---- */

  /** Nothing sets or drops `key` itself: it is only read, while other keys are used and dropped at will. */
  predicate Leaves<V>(ops: seq<Op<V>>, key: string) {
    forall i | 0 <= i < |ops| :: ops[i].Get? || (!ops[i].Clear? && ops[i].key != key)
  }

  /**
   * The other keys in use since `key` was last read: those set, and those that a get found; a key that was deleted
   * is in use no longer, and a get that finds nothing uses nothing.
   */
  function Newer<V>(es: seq<Entry<V>>, cap: int, ops: seq<Op<V>>, key: string): set<string> {
    if ops == [] then {}
    else
      var n := |ops| - 1;
      var before := Newer(es, cap, ops[..n], key);
      match ops[n]
      case Get(k) =>
        if k == key then {} else if Find(Run(es, cap, ops[..n]), k).Some? then before + {k} else before
      case Set(k, _) => before + {k}
      case Delete(k) => before - {k}
      case Clear => {}
  }

  function Keys<V>(es: seq<Entry<V>>): set<string> {
    set i | 0 <= i < |es| :: es[i].key
  }

  ghost predicate HeldAt<V>(es: seq<Entry<V>>, i: nat, key: string, value: V, newer: set<string>) {
    i < |es| && es[i] == Entry(key, value) && Keys(es[i + 1..]) == newer
  }

  /** `key` holds `value`, and `newer` are exactly the keys of the entries behind it. */
  ghost predicate Holds<V>(es: seq<Entry<V>>, key: string, value: V, newer: set<string>) {
    exists i :: HeldAt(es, i, key, value, newer)
  }

  lemma {:induction false} AsManyKeys<V>(es: seq<Entry<V>>)
    requires DistinctKeys(es)
    ensures |Keys(es)| == |es|
  {
    if es != [] {
      AsManyKeys(es[1..]);
      forall k ensures k in Keys(es) <==> k == es[0].key || k in Keys(es[1..]) {
        if k in Keys(es) && k != es[0].key {
          var i :| 0 <= i < |es| && es[i].key == k;
          assert es[1..][i - 1].key == k;
        }
      }
      assert Keys(es) == {es[0].key} + Keys(es[1..]);
    }
  }

  lemma KeysOfConcat<V>(a: seq<Entry<V>>, b: seq<Entry<V>>)
    ensures Keys(a + b) == Keys(a) + Keys(b)
  {
    forall k | k in Keys(a) + Keys(b) ensures k in Keys(a + b) {
      if i :| 0 <= i < |a| && a[i].key == k {
        assert (a + b)[i].key == k;
      } else {
        var j :| 0 <= j < |b| && b[j].key == k;
        assert (a + b)[|a| + j].key == k;
      }
    }
  }

  lemma HeldIsFound<V>(es: seq<Entry<V>>, key: string, value: V, newer: set<string>)
    requires DistinctKeys(es) && Holds(es, key, value, newer)
    ensures Find(es, key) == Some(value)
  {
    var i: nat :| HeldAt(es, i, key, value, newer);
    FindAt(es, i);
  }

  lemma KeysWithout<V>(before: seq<Entry<V>>, e: Entry<V>, after: seq<Entry<V>>)
    requires DistinctKeys(before + [e] + after)
    ensures Keys(before + after) == Keys(before + [e] + after) - {e.key}
  {
    var all := before + [e] + after;
    KeysOfConcat(before, after);
    KeysOfConcat(before, [e]);
    KeysOfConcat(before + [e], after);
    assert [e][0].key in Keys([e]);
    assert all[|before|] == e;
    assert forall i | 0 <= i < |before| :: before[i] == all[i];
    assert forall i | 0 <= i < |after| :: after[i] == all[|before| + 1 + i];
  }

  /** What stands behind position `i` once another entry is taken out. */
  lemma TailWithout<V>(es: seq<Entry<V>>, i: nat, m: nat)
    requires DistinctKeys(es) && i < |es| && m < |es| && m != i
    ensures var rest, at := es[..m] + es[m + 1..], if i < m then i else i - 1;
            at < |rest| && rest[at] == es[i] && Keys(rest[at + 1..]) == Keys(es[i + 1..]) - {es[m].key}
  {
    var rest, at := es[..m] + es[m + 1..], if i < m then i else i - 1;
    var tail := es[i + 1..];
    if i < m {
      var d := m - i - 1;
      assert tail == tail[..d] + [es[m]] + tail[d + 1..];
      assert rest[at + 1..] == tail[..d] + tail[d + 1..];
      KeysWithout(tail[..d], es[m], tail[d + 1..]);
    } else {
      assert rest[at + 1..] == tail;
      assert es[m].key !in Keys(tail);
    }
  }

  lemma WithoutAtHolds<V>(es: seq<Entry<V>>, i: nat, key: string, value: V, newer: set<string>, m: nat)
    requires DistinctKeys(es) && HeldAt(es, i, key, value, newer) && m < |es| && m != i
    ensures Holds(Without(es, es[m].key), key, value, newer - {es[m].key})
  {
    var out := es[m].key;
    WithoutSplit(es, out, m);
    TailWithout(es, i, m);
    assert HeldAt(Without(es, out), if i < m then i else i - 1, key, value, newer - {out});
  }

  lemma WithoutHolds<V>(es: seq<Entry<V>>, key: string, value: V, newer: set<string>, out: string)
    requires DistinctKeys(es) && Holds(es, key, value, newer) && out != key
    ensures Holds(Without(es, out), key, value, newer - {out})
  {
    var i: nat :| HeldAt(es, i, key, value, newer);
    if m: nat :| m < |es| && es[m].key == out {
      WithoutAtHolds(es, i, key, value, newer, m);
    } else {
      WithoutNothing(es, out);
      var tail := es[i + 1..];
      assert forall j | 0 <= j < |tail| :: tail[j].key != out;
      assert newer - {out} == newer;
    }
  }

  lemma TouchHolds<V>(es: seq<Entry<V>>, key: string, value: V, newer: set<string>, k: string, v: V)
    requires DistinctKeys(es) && Holds(es, key, value, newer) && k != key
    ensures Holds(Touch(es, k, v), key, value, newer + {k})
  {
    WithoutHolds(es, key, value, newer, k);
    var rest, last := Without(es, k), [Entry(k, v)];
    var i: nat :| HeldAt(rest, i, key, value, newer - {k});
    assert (rest + last)[i + 1..] == rest[i + 1..] + last;
    KeysOfConcat(rest[i + 1..], last);
    assert last[0].key in Keys(last);
    assert HeldAt(rest + last, i, key, value, newer + {k});
  }

  /** Eviction spares `key` exactly when fewer than `cap` entries are behind it. */
  lemma EvictHolds<V>(t: seq<Entry<V>>, cap: int, key: string, value: V, newer: set<string>)
    requires cap > 0 && DistinctKeys(t) && Holds(t, key, value, newer)
    ensures if |newer| < cap then Holds(Evict(t, cap), key, value, newer) else !Has(Evict(t, cap), key)
  {
    var i: nat :| HeldAt(t, i, key, value, newer);
    AsManyKeys(t[i + 1..]);
    var drop := EvictShape(t, cap);
    var after := Evict(t, cap);
    if |newer| < cap {
      assert after[i - drop] == t[i];
      assert after[i - drop + 1..] == t[i + 1..];
      assert HeldAt(after, i - drop, key, value, newer);
    } else {
      forall j | 0 <= j < |after| ensures after[j].key != key { assert after[j] == t[j + drop] && i < drop; }
    }
  }

  /** One operation: the key is held as before, with the newer keys brought up to date, or evicted. */
  lemma StepHolds<V>(start: seq<Entry<V>>, cap: int, ops: seq<Op<V>>, key: string, value: V)
    requires ops != [] && Leaves(ops, key) && cap > 0
    requires var es := Run(start, cap, ops[..|ops| - 1]);
             Bounded(es, cap) && Holds(es, key, value, Newer(start, cap, ops[..|ops| - 1], key))
    ensures var newer := Newer(start, cap, ops, key);
            if |newer| < cap then Holds(Run(start, cap, ops), key, value, newer) else !Has(Run(start, cap, ops), key)
  {
    var n := |ops| - 1;
    var es, newer := Run(start, cap, ops[..n]), Newer(start, cap, ops[..n], key);
    match ops[n]
    case Get(k) =>
      HeldIsFound(es, key, value, newer);
      if k == key {
        assert HeldAt(Touch(es, key, value), |Without(es, key)|, key, value, {});
      } else if Find(es, k).Some? {
        TouchHolds(es, key, value, newer, k, Find(es, k).value);
      }
      StepKeepsBounded(es, cap, ops[n]);
      FewBehind(Run(start, cap, ops), cap, key, value, Newer(start, cap, ops, key));
    case Set(k, v) =>
      TouchHolds(es, key, value, newer, k, v);
      var _, _ := TouchShape(es, k, v);
      EvictHolds(Touch(es, k, v), cap, key, value, newer + {k});
    case Delete(k) =>
      WithoutHolds(es, key, value, newer, k);
      StepKeepsBounded(es, cap, ops[n]);
      FewBehind(Without(es, k), cap, key, value, newer - {k});
  }

  /** Within the bound, a key that is there has fewer than `cap` newer ones. */
  lemma FewBehind<V>(es: seq<Entry<V>>, cap: int, key: string, value: V, newer: set<string>)
    requires Bounded(es, cap) && Holds(es, key, value, newer)
    ensures |newer| < cap
  {
    var i: nat :| HeldAt(es, i, key, value, newer);
    AsManyKeys(es[i + 1..]);
  }

  lemma TouchStaysAway<V>(es: seq<Entry<V>>, k: string, v: V, key: string)
    requires DistinctKeys(es) && !Has(es, key) && k != key
    ensures !Has(Touch(es, k, v), key)
  {
    var m, n := TouchShape(es, k, v);
    var t := Touch(es, k, v);
    forall i | 0 <= i < |t| ensures t[i].key != key {
      if i < |t| - 1 { assert t[i] == es[if i < m then i else i + (n - m)]; }
    }
  }

  lemma EvictStaysAway<V>(t: seq<Entry<V>>, cap: int, key: string)
    requires cap > 0 && !Has(t, key)
    ensures !Has(Evict(t, cap), key)
  {
    var drop := EvictShape(t, cap);
    var after := Evict(t, cap);
    forall i | 0 <= i < |after| ensures after[i].key != key { assert after[i] == t[i + drop]; }
  }

  lemma StaysAway<V>(es: seq<Entry<V>>, cap: int, op: Op<V>, key: string)
    requires cap > 0 && Bounded(es, cap) && !Has(es, key) && (op.Get? || (!op.Clear? && op.key != key))
    ensures !Has(Step(es, cap, op), key)
  {
    match op
    case Get(k) =>
      FindNothing(es, key);
      if Find(es, k).Some? { TouchStaysAway(es, k, Find(es, k).value, key); }
    case Set(k, v) =>
      TouchStaysAway(es, k, v, key);
      EvictStaysAway(Touch(es, k, v), cap, key);
    case Delete(k) =>
      if m :| 0 <= m < |es| && es[m].key == k {
        WithoutSplit(es, k, m);
      } else {
        WithoutNothing(es, k);
      }
  }

  /** Never have `cap` other keys come into use since the key was last read. */
  predicate NeverPushedOut<V>(es: seq<Entry<V>>, cap: int, ops: seq<Op<V>>, key: string) {
    ops == [] || (NeverPushedOut(es, cap, ops[..|ops| - 1], key) && |Newer(es, cap, ops, key)| < cap)
  }

  lemma {:induction false} RunHolds<V>(es: seq<Entry<V>>, cap: int, ops: seq<Op<V>>, key: string, value: V)
    requires cap > 0 && Bounded(es, cap) && Holds(es, key, value, {}) && Leaves(ops, key)
    ensures if NeverPushedOut(es, cap, ops, key)
            then Holds(Run(es, cap, ops), key, value, Newer(es, cap, ops, key))
            else !Has(Run(es, cap, ops), key)
  {
    if ops != [] {
      var n := |ops| - 1;
      var last := Run(es, cap, ops[..n]);
      RunHolds(es, cap, ops[..n], key, value);
      AlwaysBounded(es, cap, ops[..n]);
      if NeverPushedOut(es, cap, ops[..n], key) {
        StepHolds(es, cap, ops, key, value);
      } else {
        StaysAway(last, cap, ops[n], key);
      }
    }
  }

  /**
   * When a value is retained. A key that a set stored or a get found is, until it is set or dropped itself, returned
   * with that value exactly as long as there never were `cap` other keys in use since it was last read.
   */
  lemma RetainedIffNeverPushedOut<V>(cap: int, before: seq<Op<V>>, use: Op<V>, value: V, after: seq<Op<V>>)
    requires cap > 0 && (use.Get? || use.Set?) && Leaves(after, use.key)
    requires Find(Run([], cap, before + [use]), use.key) == Some(value)
    ensures var start := Run([], cap, before + [use]);
            Find(Run(start, cap, after), use.key) == Some(value) <==> NeverPushedOut(start, cap, after, use.key)
  {
    var start := Run([], cap, before + [use]);
    assert (before + [use])[..|before|] == before;
    AlwaysBounded([], cap, before + [use]);
    FindNothing(start, use.key);
    FindAt(start, |start| - 1);
    assert HeldAt(start, |start| - 1, use.key, value, {});
    RunHolds(start, cap, after, use.key, value);
    AlwaysBounded(start, cap, after);
    if NeverPushedOut(start, cap, after, use.key) {
      HeldIsFound(Run(start, cap, after), use.key, value, Newer(start, cap, after, use.key));
    } else {
      FindNothing(Run(start, cap, after), use.key);
    }
  }

  /** The keys other than `key` that the operations get or set. */
  function Others<V>(ops: seq<Op<V>>, key: string): set<string> {
    set i | 0 <= i < |ops| && (ops[i].Get? || ops[i].Set?) && ops[i].key != key :: ops[i].key
  }

  lemma OthersSnoc<V>(ops: seq<Op<V>>, key: string)
    requires ops != []
    ensures var before, op := Others(ops[..|ops| - 1], key), ops[|ops| - 1];
            Others(ops, key) == if (op.Get? || op.Set?) && op.key != key then before + {op.key} else before
  {
    var before, op := ops[..|ops| - 1], ops[|ops| - 1];
    assert forall i | 0 <= i < |before| :: before[i] == ops[i];
    forall k | k in Others(ops, key) ensures k in Others(before, key) || ((op.Get? || op.Set?) && op.key == k) {
      var i :| 0 <= i < |ops| && (ops[i].Get? || ops[i].Set?) && ops[i].key != key && ops[i].key == k;
      if i < |before| { assert before[i].key == k; }
    }
  }

  lemma {:induction false} NewerAreOthers<V>(es: seq<Entry<V>>, cap: int, ops: seq<Op<V>>, key: string)
    requires Leaves(ops, key)
    ensures Newer(es, cap, ops, key) <= Others(ops, key)
    ensures |Others(ops, key)| < cap ==> NeverPushedOut(es, cap, ops, key)
  {
    if ops != [] {
      var before := ops[..|ops| - 1];
      NewerAreOthers(es, cap, before, key);
      OthersSnoc(ops, key);
      SubsetIsNoLarger(Others(before, key), Others(ops, key));
      SubsetIsNoLarger(Newer(es, cap, ops, key), Others(ops, key));
    }
  }

  /**
   * A key that was set or found stays, with its value, while fewer than `cap` other keys are used: it survives
   * whatever the cache did before, and a get renews it as a set does.
   */
  lemma RecentlyUsedIsRetained<V>(cap: int, before: seq<Op<V>>, use: Op<V>, value: V, after: seq<Op<V>>)
    requires cap > 0 && (use.Get? || use.Set?) && Leaves(after, use.key) && |Others(after, use.key)| < cap
    requires Find(Run([], cap, before + [use]), use.key) == Some(value)
    ensures Find(Run(Run([], cap, before + [use]), cap, after), use.key) == Some(value)
  {
    var start := Run([], cap, before + [use]);
    NewerAreOthers(start, cap, after, use.key);
    RetainedIffNeverPushedOut(cap, before, use, value, after);
  }

  lemma SubsetIsNoLarger(a: set<string>, b: set<string>)
    requires a <= b
    ensures |a| <= |b|
  {
    assert b == a + (b - a);
  }

  /** Only sets of other keys. */
  predicate OnlySetsOthers<V>(ops: seq<Op<V>>, key: string) {
    forall i | 0 <= i < |ops| :: ops[i].Set? && ops[i].key != key
  }

  lemma {:induction false} SetsAreNewer<V>(es: seq<Entry<V>>, cap: int, ops: seq<Op<V>>, key: string)
    requires cap > 0 && OnlySetsOthers(ops, key)
    ensures Newer(es, cap, ops, key) == Others(ops, key)
    ensures NeverPushedOut(es, cap, ops, key) <==> |Others(ops, key)| < cap
  {
    if ops == [] {
      assert Others(ops, key) == {};
    } else {
      var n := |ops| - 1;
      SetsAreNewer(es, cap, ops[..n], key);
      OthersSnoc(ops, key);
      SubsetIsNoLarger(Others(ops[..n], key), Others(ops, key));
    }
  }

  /** Under sets of other keys a value is retained exactly while fewer than `cap` different ones have been set. */
  lemma RetainedIffFewerSets<V>(cap: int, before: seq<Op<V>>, use: Op<V>, value: V, after: seq<Op<V>>)
    requires cap > 0 && (use.Get? || use.Set?) && OnlySetsOthers(after, use.key)
    requires Find(Run([], cap, before + [use]), use.key) == Some(value)
    ensures Find(Run(Run([], cap, before + [use]), cap, after), use.key) == Some(value)
       <==> |Others(after, use.key)| < cap
  {
    SetsAreNewer(Run([], cap, before + [use]), cap, after, use.key);
    RetainedIffNeverPushedOut(cap, before, use, value, after);
  }

  /* ---- the objects ---- */

  /** Drops the oldest entries while there are too many. */
  method EvictOldest<V>(es: seq<Entry<V>>, cap: int) returns (kept: seq<Entry<V>>)
    ensures kept == Evict(es, cap)
  {
    kept := es;
    var excess := |es| - cap;
    for i := 0 to |es|
      invariant excess == |es| - cap - i
      invariant kept == es[i..]
      invariant i > 0 ==> excess >= 0
    {
      if excess <= 0 {
        return;
      }
      kept := kept[1..];
      excess := excess - 1;
    }
  }

  class DataCache<V> {
    const maxEntries: nat
    var entries: seq<Entry<V>>

    ghost predicate Valid()
      reads this
    {
      maxEntries > 0 && Bounded(entries, maxEntries)
    }

    /** The source refuses a bound that is no positive integer. */
    constructor (maxEntries: nat)
      requires maxEntries > 0
      ensures Valid() && entries == [] && this.maxEntries == maxEntries
    {
      this.maxEntries := maxEntries;
      entries := [];
    }

    method GetEntry(key: string) returns (value: Option<V>)
      requires Valid()
      modifies this
      ensures Valid() && entries == Step(old(entries), maxEntries, Get(key)) && value == Find(old(entries), key)
    {
      StepKeepsBounded(entries, maxEntries, Get(key));
      value := Find(entries, key);
      if value.Some? {
        entries := Without(entries, key);
        entries := entries + [Entry(key, value.value)];
      }
    }

    method SetEntry(key: string, value: V)
      requires Valid()
      modifies this
      ensures Valid() && entries == Step(old(entries), maxEntries, Set(key, value))
    {
      StepKeepsBounded(entries, maxEntries, Set(key, value));
      var touched := Without(entries, key) + [Entry(key, value)];
      entries := EvictOldest(touched, maxEntries);
    }

    method DeleteEntry(key: string)
      requires Valid()
      modifies this
      ensures Valid() && entries == Step(old(entries), maxEntries, Op.Delete(key))
    {
      StepKeepsBounded(entries, maxEntries, Op.Delete(key));
      entries := Without(entries, key);
    }

    method ClearEntries()
      requires Valid()
      modifies this
      ensures Valid() && entries == []
    {
      entries := [];
    }
  }
}
