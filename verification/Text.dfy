/**
 * JavaScript strings as sequences of UTF-16 code units, the order `Array.prototype.sort` puts them in,
 * and the decimal text of a length.
 */
module Text {
  import opened Options

  type CodeUnit = c: int | 0 <= c < 0x1_0000
  type JsString = seq<CodeUnit>

  const COLON: CodeUnit := 58
  const ZERO: CodeUnit := 48
  const MINUS: CodeUnit := 45

  function Unit(c: char): CodeUnit {
    c as int % 0x1_0000
  }

  function Js(s: string): JsString {
    seq(|s|, i requires 0 <= i < |s| => Unit(s[i]))
  }

  /* ---- the default sort order ---- */

  predicate Less(a: JsString, b: JsString) {
    if b == [] then false
    else if a == [] then true
    else a[0] < b[0] || (a[0] == b[0] && Less(a[1..], b[1..]))
  }

  lemma {:induction false} LessTotal(a: JsString, b: JsString)
    ensures Less(a, b) || a == b || Less(b, a)
  {
    if a == [] || b == [] {
    } else {
      LessTotal(a[1..], b[1..]);
      assert a == [a[0]] + a[1..] && b == [b[0]] + b[1..];
    }
  }

  lemma {:induction false} LessIrreflexive(a: JsString)
    ensures !Less(a, a)
  {
    if a != [] {
      LessIrreflexive(a[1..]);
    }
  }

  lemma {:induction false} LessTransitive(a: JsString, b: JsString, c: JsString)
    requires Less(a, b) && Less(b, c)
    ensures Less(a, c)
  {
    if a != [] && a[0] == b[0] == c[0] {
      LessTransitive(a[1..], b[1..], c[1..]);
    }
  }

  ghost predicate Increasing(keys: seq<JsString>) {
    forall i, j :: 0 <= i < j < |keys| ==> Less(keys[i], keys[j])
  }

  ghost predicate Distinct<T>(s: seq<T>) {
    forall i, j :: 0 <= i < j < |s| ==> s[i] != s[j]
  }

  function Insert(key: JsString, keys: seq<JsString>): seq<JsString> {
    if keys == [] || Less(key, keys[0]) then [key] + keys
    else [keys[0]] + Insert(key, keys[1..])
  }

  /** The keys in ascending order: what `[...keys].sort()` returns. */
  function SortKeys(keys: seq<JsString>): seq<JsString> {
    if keys == [] then [] else Insert(keys[0], SortKeys(keys[1..]))
  }

  lemma {:induction false} InsertSorts(key: JsString, keys: seq<JsString>)
    requires Increasing(keys) && key !in keys
    ensures Increasing(Insert(key, keys))
    ensures forall k :: k in Insert(key, keys) <==> k == key || k in keys
  {
    if keys == [] {
    } else if Less(key, keys[0]) {
      forall j | 0 <= j < |keys| ensures Less(key, keys[j]) {
        if j > 0 { LessTransitive(key, keys[0], keys[j]); }
      }
    } else {
      LessTotal(key, keys[0]);
      InsertSorts(key, keys[1..]);
      var rest := Insert(key, keys[1..]);
      forall j | 0 <= j < |rest| ensures Less(keys[0], rest[j]) {
        assert rest[j] in rest;
      }
      assert keys == [keys[0]] + keys[1..];
    }
  }

  lemma {:induction false} SortKeysSorts(keys: seq<JsString>)
    requires Distinct(keys)
    ensures Increasing(SortKeys(keys))
    ensures forall k :: k in SortKeys(keys) <==> k in keys
  {
    if keys != [] {
      SortKeysSorts(keys[1..]);
      assert keys == [keys[0]] + keys[1..];
      assert keys[0] !in keys[1..];
      InsertSorts(keys[0], SortKeys(keys[1..]));
    }
  }

  lemma {:induction false} IncreasingUnique(a: seq<JsString>, b: seq<JsString>)
    requires Increasing(a) && Increasing(b)
    requires forall k :: k in a <==> k in b
    ensures a == b
  {
    if a == [] {
      assert forall k :: k !in b;
      assert forall i | 0 <= i < |b| :: b[i] in b;
    } else {
      assert a[0] in b;
      assert b[0] in a;
      if a[0] != b[0] {
        assert Less(b[0], a[0]) && Less(a[0], b[0]);
        LessTransitive(a[0], b[0], a[0]);
        LessIrreflexive(a[0]);
        assert false;
      }
      LessIrreflexive(a[0]);
      assert a == [a[0]] + a[1..] && b == [b[0]] + b[1..];
      assert a[0] !in a[1..] && b[0] !in b[1..];
      forall k ensures k in a[1..] <==> k in b[1..] {
        assert k in a[1..] <==> k in a && k != a[0];
        assert k in b[1..] <==> k in b && k != b[0];
      }
      IncreasingUnique(a[1..], b[1..]);
    }
  }

  /** Sorting forgets the order the keys came in: only the set of keys counts. */
  lemma SortKeysByContents(a: seq<JsString>, b: seq<JsString>)
    requires Distinct(a) && Distinct(b)
    requires forall k :: k in a <==> k in b
    ensures SortKeys(a) == SortKeys(b)
  {
    SortKeysSorts(a);
    SortKeysSorts(b);
    IncreasingUnique(SortKeys(a), SortKeys(b));
  }

  /* ---- decimal text ---- */

  predicate IsDigit(c: CodeUnit) {
    48 <= c <= 57
  }

  /** `String(n)` for a non-negative integer. */
  function Digits(n: nat): JsString {
    if n < 10 then [ZERO + n] else Digits(n / 10) + [ZERO + n % 10]
  }

  /** Reads decimal digits up to the first colon; the number and what follows the colon. */
  function ReadNumber(s: JsString, acc: nat): (r: Option<(nat, JsString)>)
    ensures r.Some? ==> |r.value.1| < |s|
  {
    if s == [] then None
    else if s[0] == COLON then Some((acc, s[1..]))
    else if IsDigit(s[0]) then ReadNumber(s[1..], acc * 10 + (s[0] - 48))
    else None
  }

  lemma {:induction false} ReadDigits(n: nat, rest: JsString)
    ensures ReadNumber(Digits(n) + rest, 0) == ReadNumber(rest, n)
  {
    var d: CodeUnit := ZERO + n % 10;
    if n < 10 {
      assert Digits(n) + rest == [d] + rest;
      assert ([d] + rest)[1..] == rest;
    } else {
      var tail := [d] + rest;
      ReadDigits(n / 10, tail);
      assert Digits(n) + rest == Digits(n / 10) + tail;
      assert tail[1..] == rest;
    }
  }
}
