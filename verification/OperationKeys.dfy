/**
 * The keys calls are recorded under: the canonical form of their params, or, when there is none, a key made up for
 * the one call.
 */
module OperationKeys {
  import opened Options
  import opened Text
  import opened Canonical
  import Dedupe

  const TILDE: CodeUnit := 126

  type Params = Dedupe.Params

  /** The key made up for the `n`th call without a canonical form. */
  function SyntheticKey(n: nat): JsString {
    [TILDE] + Js("uncanonicalizable-") + Digits(n)
  }

  /** An encoding starts with the letter of a tag, so that no canonical form is ever a made-up key. */
  lemma EncodingIsNotSynthetic(t: Tree, n: nat)
    requires Encodable(t)
    ensures Encode(t) != SyntheticKey(n)
  {
    assert SyntheticKey(n)[0] == TILDE;
    if t.Leaf? {
      var tag, payload := ScalarAtom(t.p);
      assert Encode(t)[0] == Unit(tag);
      TagIsNoTilde(t.p);
    }
  }

  lemma TagIsNoTilde(p: Scalar)
    requires Supported(p)
    ensures EncodeScalar(p) != [] && EncodeScalar(p)[0] != TILDE
  {
  }

  lemma CanonIsNotSynthetic(p: Params, n: nat)
    ensures Dedupe.KeyOf(p) != Some(SyntheticKey(n))
  {
    if Dedupe.KeyOf(p).Some? {
      var t := CanonSound(p.heap, p.value, {}, 0);
      EncodingIsNotSynthetic(t, n);
    }
  }

  lemma SyntheticKeysDiffer(m: nat, n: nat)
    requires SyntheticKey(m) == SyntheticKey(n)
    ensures m == n
  {
    var prefix := [TILDE] + Js("uncanonicalizable-");
    assert SyntheticKey(m)[|prefix|..] == Digits(m) && SyntheticKey(n)[|prefix|..] == Digits(n);
    ReadDigits(m, [COLON]);
    ReadDigits(n, [COLON]);
  }

  /** The canonical forms of the params of some calls, in order. */
  ghost function Forms(calls: seq<Params>): seq<Option<JsString>> {
    seq(|calls|, i requires 0 <= i < |calls| => Dedupe.KeyOf(calls[i]))
  }

  /** How many of the first `i` calls have none. */
  ghost function Uncanonical(forms: seq<Option<JsString>>, i: nat): nat
    requires i <= |forms|
  {
    if i == 0 then 0 else Uncanonical(forms, i - 1) + if forms[i - 1].None? then 1 else 0
  }

  /** The key of the `i`th call. */
  ghost function KeyOfCall(forms: seq<Option<JsString>>, i: nat): JsString
    requires i < |forms|
  {
    match forms[i] case Some(key) => key case None => SyntheticKey(Uncanonical(forms, i + 1))
  }

  lemma {:induction false} UncanonicalGrows(forms: seq<Option<JsString>>, i: nat, j: nat)
    requires i <= j <= |forms|
    ensures Uncanonical(forms, i) <= Uncanonical(forms, j)
  {
    if i < j { UncanonicalGrows(forms, i, j - 1); }
  }

  /**
   * Two calls are recorded under one key exactly when both have a canonical form, and the same one: a call without
   * shares its key with no other call.
   */
  lemma SameKeyIff(calls: seq<Params>, i: nat, j: nat)
    requires i < j < |calls|
    ensures var forms := Forms(calls);
            KeyOfCall(forms, i) == KeyOfCall(forms, j) <==> forms[i].Some? && forms[i] == forms[j]
  {
    var forms := Forms(calls);
    CanonIsNotSynthetic(calls[i], Uncanonical(forms, j + 1));
    CanonIsNotSynthetic(calls[j], Uncanonical(forms, i + 1));
    if forms[i].None? && forms[j].None? && KeyOfCall(forms, i) == KeyOfCall(forms, j) {
      UncanonicalGrows(forms, i + 1, j);
      SyntheticKeysDiffer(Uncanonical(forms, i + 1), Uncanonical(forms, j + 1));
      assert false;
    }
  }

  lemma {:induction false} UncanonicalOfPrefix(forms: seq<Option<JsString>>, last: Option<JsString>, i: nat)
    requires i <= |forms|
    ensures Uncanonical(forms + [last], i) == Uncanonical(forms, i)
  {
    if i > 0 { UncanonicalOfPrefix(forms, last, i - 1); }
  }

  class KeySource {
    var syntheticKeyCounter: nat
    ghost var calls: seq<Params>

    ghost predicate Valid()
      reads this
    {
      syntheticKeyCounter == Uncanonical(Forms(calls), |calls|)
    }

    constructor ()
      ensures Valid() && calls == []
    {
      syntheticKeyCounter, calls := 0, [];
    }

    method ComputeOperationKey(params: Params) returns (key: JsString)
      requires Valid() && WellFormed(params.heap)
      modifies this
      ensures Valid() && calls == old(calls) + [params] && key == KeyOfCall(Forms(calls), |calls| - 1)
    {
      ghost var form := Dedupe.KeyOf(params);
      UncanonicalOfPrefix(Forms(calls), form, |calls|);
      assert Forms(calls + [params]) == Forms(calls) + [form];
      calls := calls + [params];
      var canonical := Canonicalize(params.heap, params.value);
      if canonical.Some? {
        return canonical.value;
      }
      syntheticKeyCounter := syntheticKeyCounter + 1;
      return SyntheticKey(syntheticKeyCounter);
    }
  }
}
