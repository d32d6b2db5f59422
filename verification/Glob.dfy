/**
 * The glob compiler. `GlobToRegExp` writes the text of a regular expression; `ParseRegExp` reads the part of the
 * ECMAScript pattern syntax that the compiler emits, `Matches` says which strings a parsed expression accepts,
 * and `GlobMatch` matches a path against the glob directly, without any regular expression.
 */
module Glob {
  import opened Options
  import opened Text

  const STAR: CodeUnit := 42
  const QUESTION: CodeUnit := 63
  const SLASH: CodeUnit := 47
  const BACKSLASH: CodeUnit := 92
  const CARET: CodeUnit := 94
  const DOLLAR: CodeUnit := 36
  const DOT: CodeUnit := 46
  const OPEN: CodeUnit := 40
  const CLOSE: CodeUnit := 41
  const BRACKET: CodeUnit := 91
  const UNBRACKET: CodeUnit := 93
  const PLUS: CodeUnit := 43
  const BRACE: CodeUnit := 123

  /** `.+^${}()|[]\` -- every syntax character except the two the compiler gives a meaning. */
  predicate Escaped(c: CodeUnit) {
    c in {46, 43, 94, 36, 123, 125, 40, 41, 124, 91, 93, 92}
  }

  predicate IsSyntax(c: CodeUnit) {
    Escaped(c) || c == STAR || c == QUESTION
  }

  predicate IsLineTerminator(c: CodeUnit) {
    c == 10 || c == 13 || c == 0x2028 || c == 0x2029
  }

  /* ---- regular expressions ---- */

  datatype Regex =
    | Empty
    | Literal(c: CodeUnit)
    | AnyChar
    | NotSlash
    | Seq(first: Regex, second: Regex)
    | Star(inner: Regex)
    | Maybe(inner: Regex)

  /** The whole of `s` is accepted: the anchored test `^...$`. */
  ghost predicate Matches(r: Regex, s: JsString)
    decreases r, |s|
  {
    match r
    case Empty => s == []
    case Literal(c) => s == [c]
    case AnyChar => |s| == 1 && !IsLineTerminator(s[0])
    case NotSlash => |s| == 1 && s[0] != SLASH
    case Seq(a, b) => exists k | 0 <= k <= |s| :: Matches(a, s[..k]) && Matches(b, s[k..])
    case Maybe(a) => s == [] || Matches(a, s)
    case Star(a) => s == [] || exists k | 0 < k <= |s| :: Matches(a, s[..k]) && Matches(r, s[k..])
  }

  /** Reads terms up to the end of a group or of the pattern. */
  function ParseSeq(s: JsString): (r: Option<(Regex, JsString)>)
    ensures r.Some? ==> |r.value.1| <= |s|
    decreases |s|, 2
  {
    if s == [] || s[0] == CLOSE || s[0] == DOLLAR then Some((Empty, s))
    else
      match ParseTerm(s)
      case None => None
      case Some((term, rest)) =>
        match ParseSeq(rest) case None => None case Some((terms, after)) => Some((Seq(term, terms), after))
  }

  /** An atom with an optional `*` or `?`; a lazy or counted quantifier is outside the emitted syntax. */
  function ParseTerm(s: JsString): (r: Option<(Regex, JsString)>)
    ensures r.Some? ==> |r.value.1| < |s|
    decreases |s|, 1
  {
    match ParseAtom(s)
    case None => None
    case Some((a, rest)) =>
      if rest == [] || rest[0] !in {STAR, QUESTION, PLUS, BRACE} then Some((a, rest))
      else if rest[0] in {PLUS, BRACE} || (|rest| > 1 && rest[1] == QUESTION) then None
      else if rest[0] == STAR then Some((Star(a), rest[1..]))
      else Some((Maybe(a), rest[1..]))
  }

  function ParseAtom(s: JsString): (r: Option<(Regex, JsString)>)
    ensures r.Some? ==> |r.value.1| < |s|
    decreases |s|, 0
  {
    if s == [] then None
    else if s[0] == DOT then Some((AnyChar, s[1..]))
    else if s[0] == BACKSLASH then
      if |s| > 1 && IsSyntax(s[1]) then Some((Literal(s[1]), s[2..])) else None
    else if s[0] == BRACKET then
      if |s| > 3 && s[..4] == [BRACKET, CARET, SLASH, UNBRACKET] then Some((NotSlash, s[4..])) else None
    else if s[0] == OPEN then
      if |s| > 2 && s[..3] == [OPEN, QUESTION, COLON] then
        match ParseSeq(s[3..])
        case None => None
        case Some((inner, rest)) => if rest != [] && rest[0] == CLOSE then Some((inner, rest[1..])) else None
      else None
    else if IsSyntax(s[0]) then None
    else Some((Literal(s[0]), s[1..]))
  }

  /** `^` terms `$` */
  function ParseRegExp(s: JsString): Option<Regex> {
    if s == [] || s[0] != CARET then None
    else
      match ParseSeq(s[1..]) case None => None case Some((r, rest)) => if rest == [DOLLAR] then Some(r) else None
  }

  /* ---- direct matching ---- */

  ghost predicate NoLineTerminator(s: JsString) {
    forall i | 0 <= i < |s| :: !IsLineTerminator(s[i])
  }

  ghost predicate NoSlash(s: JsString) {
    SLASH !in s
  }

  /** Whether one `**` may stand for `s`: anything at all, or anything on one line. */
  ghost predicate Spans(oneLine: bool, s: JsString) {
    oneLine ==> NoLineTerminator(s)
  }

  predicate DoubleStar(p: JsString) {
    |p| > 1 && p[0] == STAR && p[1] == STAR
  }

  /**
   * `boundary` says that `p` starts the pattern or follows a slash in it. There, `**` with a slash stands for any
   * number of whole segments, each with its slash, including none; elsewhere `**` stands for any text. `*` stays
   * within a segment and `?` is one character of a segment.
   */
  ghost predicate GlobMatch(oneLine: bool, p: JsString, boundary: bool, s: JsString)
    decreases |p|
  {
    if p == [] then s == []
    else if DoubleStar(p) then
      if boundary && |p| > 2 && p[2] == SLASH then
        exists k | 0 <= k <= |s| ::
          (k == 0 || s[k - 1] == SLASH) && Spans(oneLine, s[..k]) && GlobMatch(oneLine, p[3..], true, s[k..])
      else
        exists k | 0 <= k <= |s| :: Spans(oneLine, s[..k]) && GlobMatch(oneLine, p[2..], false, s[k..])
    else if p[0] == STAR then
      exists k | 0 <= k <= |s| :: NoSlash(s[..k]) && GlobMatch(oneLine, p[1..], false, s[k..])
    else if p[0] == QUESTION then
      s != [] && s[0] != SLASH && GlobMatch(oneLine, p[1..], false, s[1..])
    else
      s != [] && s[0] == p[0] && GlobMatch(oneLine, p[1..], p[0] == SLASH, s[1..])
  }

  /* ---- what the loop writes ---- */

  const SEGMENTS: JsString := [OPEN, QUESTION, COLON, DOT, STAR, SLASH, CLOSE, QUESTION]
  const ANYTHING: JsString := [DOT, STAR]
  const WITHIN: JsString := [BRACKET, CARET, SLASH, UNBRACKET, STAR]
  const ONE: JsString := [BRACKET, CARET, SLASH, UNBRACKET]

  function Emit(p: JsString, boundary: bool): JsString {
    if p == [] then []
    else if DoubleStar(p) then
      if boundary && |p| > 2 && p[2] == SLASH then SEGMENTS + Emit(p[3..], true)
      else ANYTHING + Emit(p[2..], false)
    else if p[0] == STAR then WITHIN + Emit(p[1..], false)
    else if p[0] == QUESTION then ONE + Emit(p[1..], false)
    else (if Escaped(p[0]) then [BACKSLASH, p[0]] else [p[0]]) + Emit(p[1..], p[0] == SLASH)
  }

  /** The expression the emitted text denotes. */
  function Compiled(p: JsString, boundary: bool): Regex {
    if p == [] then Empty
    else if DoubleStar(p) then
      if boundary && |p| > 2 && p[2] == SLASH then Seq(Maybe(Segments()), Compiled(p[3..], true))
      else Seq(Star(AnyChar), Compiled(p[2..], false))
    else if p[0] == STAR then Seq(Star(NotSlash), Compiled(p[1..], false))
    else if p[0] == QUESTION then Seq(NotSlash, Compiled(p[1..], false))
    else Seq(Literal(p[0]), Compiled(p[1..], p[0] == SLASH))
  }

  function Segments(): Regex {
    Seq(Star(AnyChar), Seq(Literal(SLASH), Empty))
  }

  /** No emitted fragment can be taken for a quantifier of the fragment before it. */
  lemma EmitStartsNoQuantifier(p: JsString, boundary: bool)
    ensures var t := Emit(p, boundary) + [DOLLAR];
            t[0] !in {STAR, QUESTION, PLUS, BRACE, CLOSE} && (t[0] == DOLLAR ==> p == [])
  {
    if p != [] && !DoubleStar(p) && p[0] != STAR && p[0] != QUESTION {
      assert Emit(p, boundary)[0] == if Escaped(p[0]) then BACKSLASH else p[0];
    }
  }

  /** The inside of the group, up to its closing parenthesis. */
  lemma ParseGroupInside(tail: JsString)
    requires tail != [] && tail[0] == CLOSE
    ensures ParseSeq([DOT, STAR, SLASH] + tail) == Some((Segments(), tail))
  {
    var inner := [DOT, STAR, SLASH] + tail;
    var after := [SLASH] + tail;
    assert inner[1..] == [STAR] + after && inner[1..][1..] == after;
    assert ParseTerm(inner) == Some((Star(AnyChar), after));
    assert after[1..] == tail;
    assert ParseTerm(after) == Some((Literal(SLASH), tail));
    assert ParseSeq(tail) == Some((Empty, tail));
    assert ParseSeq(after) == Some((Seq(Literal(SLASH), Empty), tail));
  }

  lemma ParseSegments(rest: JsString)
    requires rest != [] && rest[0] !in {STAR, QUESTION, PLUS, BRACE}
    ensures ParseTerm(SEGMENTS + rest) == Some((Maybe(Segments()), rest))
  {
    var t := SEGMENTS + rest;
    var tail := [CLOSE, QUESTION] + rest;
    assert t[..3] == [OPEN, QUESTION, COLON] && t[3..] == [DOT, STAR, SLASH] + tail;
    ParseGroupInside(tail);
    assert tail[1..] == [QUESTION] + rest;
    assert ParseAtom(t) == Some((Segments(), [QUESTION] + rest));
    assert ([QUESTION] + rest)[1..] == rest;
  }

  lemma ParseWithin(rest: JsString)
    requires rest != [] && rest[0] !in {STAR, QUESTION, PLUS, BRACE}
    ensures ParseTerm(WITHIN + rest) == Some((Star(NotSlash), rest))
    ensures ParseTerm(ONE + rest) == Some((NotSlash, rest))
    ensures ParseTerm(ANYTHING + rest) == Some((Star(AnyChar), rest))
  {
    var t := WITHIN + rest;
    assert t[..4] == ONE && t[4..] == [STAR] + rest;
    var u := ONE + rest;
    assert u[..4] == ONE && u[4..] == rest;
    var w := ANYTHING + rest;
    assert w[1..] == [STAR] + rest;
  }

  lemma ParseLiteral(c: CodeUnit, rest: JsString)
    requires c != STAR && c != QUESTION
    requires rest != [] && rest[0] !in {STAR, QUESTION, PLUS, BRACE}
    ensures ParseTerm((if Escaped(c) then [BACKSLASH, c] else [c]) + rest) == Some((Literal(c), rest))
  {
    if Escaped(c) {
      assert ([BACKSLASH, c] + rest)[2..] == rest;
    } else {
      assert ([c] + rest)[1..] == rest;
    }
  }

  /** The emitted text parses, and to the intended expression: escaping is complete and nothing is re-associated. */
  lemma {:induction false} ParseEmitted(p: JsString, boundary: bool)
    ensures ParseSeq(Emit(p, boundary) + [DOLLAR]) == Some((Compiled(p, boundary), [DOLLAR]))
    decreases |p|
  {
    EmitStartsNoQuantifier(p, boundary);
    if p == [] {
      assert Emit(p, boundary) + [DOLLAR] == [DOLLAR];
    } else {
      var skip := if !DoubleStar(p) then 1 else if boundary && |p| > 2 && p[2] == SLASH then 3 else 2;
      var next := skip == 3 || (skip == 1 && p[0] == SLASH);
      var rest := Emit(p[skip..], next) + [DOLLAR];
      ParseEmitted(p[skip..], next);
      EmitStartsNoQuantifier(p[skip..], next);
      var fragment :=
        if skip == 3 then SEGMENTS else if skip == 2 then ANYTHING
        else if p[0] == STAR then WITHIN else if p[0] == QUESTION then ONE
        else if Escaped(p[0]) then [BACKSLASH, p[0]] else [p[0]];
      assert Emit(p, boundary) + [DOLLAR] == fragment + rest;
      if skip == 3 {
        ParseSegments(rest);
      } else if skip == 2 || p[0] == STAR || p[0] == QUESTION {
        ParseWithin(rest);
      } else {
        ParseLiteral(p[0], rest);
      }
      assert ParseTerm(fragment + rest) == Some((Compiled(p, boundary).first, rest));
    }
  }

  /* ---- what the compiled expression accepts ---- */

  lemma {:induction false} StarMatches(inner: Regex, s: JsString)
    requires inner == AnyChar || inner == NotSlash
    ensures Matches(Star(inner), s) <==> forall i | 0 <= i < |s| :: Matches(inner, [s[i]])
    decreases |s|
  {
    if s != [] {
      StarMatches(inner, s[1..]);
      assert s[..1] == [s[0]];
      if forall i | 0 <= i < |s| :: Matches(inner, [s[i]]) {
        assert forall i | 0 <= i < |s[1..]| :: s[1..][i] == s[i + 1];
        assert Matches(inner, s[..1]) && Matches(Star(inner), s[1..]);
      }
      if Matches(Star(inner), s) {
        var k :| 0 < k <= |s| && Matches(inner, s[..k]) && Matches(Star(inner), s[k..]);
        assert k == 1;
        forall i | 0 <= i < |s| ensures Matches(inner, [s[i]]) {
          if i > 0 { assert s[i] == s[1..][i - 1]; }
        }
      }
    }
  }

  lemma AnyCharStar(s: JsString)
    ensures Matches(Star(AnyChar), s) <==> NoLineTerminator(s)
  {
    StarMatches(AnyChar, s);
    if Matches(Star(AnyChar), s) {
      forall i | 0 <= i < |s| ensures !IsLineTerminator(s[i]) { assert Matches(AnyChar, [s[i]]); }
    }
  }

  lemma NotSlashStar(s: JsString)
    ensures Matches(Star(NotSlash), s) <==> NoSlash(s)
  {
    StarMatches(NotSlash, s);
    if Matches(Star(NotSlash), s) {
      forall i | 0 <= i < |s| ensures s[i] != SLASH { assert Matches(NotSlash, [s[i]]); }
    } else {
      var i :| 0 <= i < |s| && !Matches(NotSlash, [s[i]]);
      assert s[i] == SLASH;
    }
  }

  lemma SegmentsMatch(s: JsString)
    ensures Matches(Maybe(Segments()), s) <==> (s == [] || (s[|s| - 1] == SLASH && NoLineTerminator(s)))
  {
    if s != [] {
      var n := |s| - 1;
      if Matches(Segments(), s) {
        var k :| 0 <= k <= |s| && Matches(Star(AnyChar), s[..k]) && Matches(Seq(Literal(SLASH), Empty), s[k..]);
        SingleThen(Literal(SLASH), Empty, s[k..]);
        assert s[k..][0] == s[k] && |s[k..]| == 1;
        AnyCharStar(s[..k]);
        assert s == s[..k] + [SLASH];
      }
      if s[n] == SLASH && NoLineTerminator(s) {
        AnyCharStar(s[..n]);
        assert s[n..] == [SLASH] && s[n..][1..] == [];
        SingleThen(Literal(SLASH), Empty, s[n..]);
      }
    }
  }

  lemma SingleThen(r: Regex, rest: Regex, s: JsString)
    requires r.Literal? || r.NotSlash?
    ensures Matches(Seq(r, rest), s) <==> s != [] && Matches(r, [s[0]]) && Matches(rest, s[1..])
  {
    if Matches(Seq(r, rest), s) {
      var k :| 0 <= k <= |s| && Matches(r, s[..k]) && Matches(rest, s[k..]);
      assert k == 1 && s[..1] == [s[0]];
    }
    if s != [] && Matches(r, [s[0]]) && Matches(rest, s[1..]) {
      assert s[..1] == [s[0]];
    }
  }

  /** The compiled expression accepts exactly what the glob matches when `**` stays on one line. */
  lemma {:induction false} CompiledMatches(p: JsString, boundary: bool, s: JsString)
    ensures Matches(Compiled(p, boundary), s) <==> GlobMatch(true, p, boundary, s)
    decreases |p|
  {
    if p == [] {
    } else if DoubleStar(p) {
      if boundary && |p| > 2 && p[2] == SLASH {
        forall k | 0 <= k <= |s|
          ensures Matches(Maybe(Segments()), s[..k]) <==> (k == 0 || s[k - 1] == SLASH) && Spans(true, s[..k])
          ensures Matches(Compiled(p[3..], true), s[k..]) <==> GlobMatch(true, p[3..], true, s[k..])
        {
          SegmentsMatch(s[..k]);
          CompiledMatches(p[3..], true, s[k..]);
        }
      } else {
        forall k | 0 <= k <= |s|
          ensures Matches(Star(AnyChar), s[..k]) <==> Spans(true, s[..k])
          ensures Matches(Compiled(p[2..], false), s[k..]) <==> GlobMatch(true, p[2..], false, s[k..])
        {
          AnyCharStar(s[..k]);
          CompiledMatches(p[2..], false, s[k..]);
        }
      }
    } else if p[0] == STAR {
      forall k | 0 <= k <= |s|
        ensures Matches(Star(NotSlash), s[..k]) <==> NoSlash(s[..k])
        ensures Matches(Compiled(p[1..], false), s[k..]) <==> GlobMatch(true, p[1..], false, s[k..])
      {
        NotSlashStar(s[..k]);
        CompiledMatches(p[1..], false, s[k..]);
      }
    } else if p[0] == QUESTION {
      SingleThen(NotSlash, Compiled(p[1..], false), s);
      if s != [] { CompiledMatches(p[1..], false, s[1..]); }
    } else {
      SingleThen(Literal(p[0]), Compiled(p[1..], p[0] == SLASH), s);
      if s != [] { CompiledMatches(p[1..], p[0] == SLASH, s[1..]); }
    }
  }

  lemma {:induction false} OneLineIsNoRestriction(p: JsString, boundary: bool, s: JsString)
    requires NoLineTerminator(s)
    ensures GlobMatch(true, p, boundary, s) <==> GlobMatch(false, p, boundary, s)
    decreases |p|
  {
    if p == [] {
    } else if DoubleStar(p) {
      var next := boundary && |p| > 2 && p[2] == SLASH;
      var skip := if next then 3 else 2;
      forall k | 0 <= k <= |s|
        ensures GlobMatch(true, p[skip..], next, s[k..]) <==> GlobMatch(false, p[skip..], next, s[k..])
      {
        OneLineIsNoRestriction(p[skip..], next, s[k..]);
      }
    } else if p[0] == STAR {
      forall k | 0 <= k <= |s|
        ensures GlobMatch(true, p[1..], false, s[k..]) <==> GlobMatch(false, p[1..], false, s[k..])
      {
        OneLineIsNoRestriction(p[1..], false, s[k..]);
      }
    } else if s != [] {
      OneLineIsNoRestriction(p[1..], p[0] == SLASH, s[1..]);
    }
  }

  /* ---- main results ---- */

  function RegExpText(pattern: JsString): JsString {
    [CARET] + Emit(pattern, true) + [DOLLAR]
  }

  /**
   * For every pattern, the text the compiler writes is a valid expression, and for every string it accepts that
   * string exactly when the glob matches it with `**` kept on one line.
   */
  lemma CompilationPreservesMeaning(pattern: JsString, s: JsString)
    ensures ParseRegExp(RegExpText(pattern)).Some?
    ensures Matches(ParseRegExp(RegExpText(pattern)).value, s) <==> GlobMatch(true, pattern, true, s)
  {
    ParseEmitted(pattern, true);
    assert RegExpText(pattern)[1..] == Emit(pattern, true) + [DOLLAR];
    CompiledMatches(pattern, true, s);
  }

  /** On a path without line terminators the expression means the glob as documented. */
  lemma PathsMatchAsDocumented(pattern: JsString, s: JsString)
    requires NoLineTerminator(s)
    ensures ParseRegExp(RegExpText(pattern)).Some?
    ensures Matches(ParseRegExp(RegExpText(pattern)).value, s) <==> GlobMatch(false, pattern, true, s)
  {
    CompilationPreservesMeaning(pattern, s);
    OneLineIsNoRestriction(pattern, true, s);
  }

  /** The compiled text and the documented glob say the same of `s`. */
  ghost predicate Agrees(pattern: JsString, s: JsString) {
    && ParseRegExp(RegExpText(pattern)).Some?
    && (Matches(ParseRegExp(RegExpText(pattern)).value, s) <==> GlobMatch(false, pattern, true, s))
  }

  /** `**` is documented to match any path, and matches those on one line. */
  lemma DoubleStarAlone(s: JsString)
    ensures GlobMatch(false, [STAR, STAR], true, s)
    ensures GlobMatch(true, [STAR, STAR], true, s) <==> NoLineTerminator(s)
  {
    var p: JsString, n := [STAR, STAR], |s|;
    assert p[2..] == [] && s[..n] == s && s[n..] == [];
    assert Spans(false, s[..n]) && GlobMatch(false, p[2..], false, s[n..]);
    if NoLineTerminator(s) { assert Spans(true, s[..n]) && GlobMatch(true, p[2..], false, s[n..]); }
    if GlobMatch(true, p, true, s) {
      var k :| 0 <= k <= n && Spans(true, s[..k]) && GlobMatch(true, p[2..], false, s[k..]);
      assert k == n;
    }
  }

  /** A path is matched as documented by every pattern exactly when it has no line terminator. */
  lemma PathMatchedAsDocumentedIff(s: JsString)
    ensures (forall pattern: JsString :: Agrees(pattern, s)) <==> NoLineTerminator(s)
  {
    if NoLineTerminator(s) {
      forall pattern: JsString ensures Agrees(pattern, s) { PathsMatchAsDocumented(pattern, s); }
    } else {
      CompilationPreservesMeaning([STAR, STAR], s);
      DoubleStarAlone(s);
      assert !Agrees([STAR, STAR], s);
    }
  }

  /** A newline alone is a path that `**` does not match. */
  lemma NewlineIsNotMatched()
    ensures GlobMatch(false, [STAR, STAR], true, [10])
    ensures ParseRegExp(RegExpText([STAR, STAR])).Some?
    ensures !Matches(ParseRegExp(RegExpText([STAR, STAR])).value, [10])
  {
    var s: JsString := [10];
    CompilationPreservesMeaning([STAR, STAR], s);
    DoubleStarAlone(s);
    assert IsLineTerminator(s[0]);
  }

  /* ---- which patterns mean what is documented ---- */

  predicate HasDoubleStar(p: JsString) {
    p != [] && (DoubleStar(p) || HasDoubleStar(p[1..]))
  }

  lemma {:induction false} WithoutDoubleStar(p: JsString, boundary: bool, s: JsString)
    requires !HasDoubleStar(p)
    ensures GlobMatch(true, p, boundary, s) <==> GlobMatch(false, p, boundary, s)
    decreases |p|
  {
    if p != [] && p[0] == STAR {
      forall k | 0 <= k <= |s|
        ensures GlobMatch(true, p[1..], false, s[k..]) <==> GlobMatch(false, p[1..], false, s[k..])
      {
        WithoutDoubleStar(p[1..], false, s[k..]);
      }
    } else if p != [] && s != [] {
      WithoutDoubleStar(p[1..], p[0] == SLASH, s[1..]);
    }
  }

  /** How often a newline is followed by a slash. */
  function Breaks(s: JsString): nat {
    if |s| < 2 then 0 else (if s[0] == 10 && s[1] == SLASH then 1 else 0) + Breaks(s[1..])
  }

  /** Cutting a text in two loses at most the one break at the cut, and none after a text of one line. */
  lemma {:induction false} BreaksOfCut(s: JsString, k: nat)
    requires k <= |s|
    ensures Breaks(s[..k]) + Breaks(s[k..]) <= Breaks(s) <= Breaks(s[..k]) + Breaks(s[k..]) + 1
    ensures NoLineTerminator(s[..k]) ==> Breaks(s) == Breaks(s[k..])
    decreases k
  {
    if k == 0 {
      assert s[0..] == s;
    } else {
      BreaksOfCut(s[1..], k - 1);
      var before, rest := s[..k], s[1..][..k - 1];
      assert rest == before[1..] && s[1..][k - 1..] == s[k..];
      assert forall i | 0 <= i < |rest| :: rest[i] == before[i + 1];
      if NoLineTerminator(before) { assert NoLineTerminator(rest) && before[0] != 10; }
    }
  }

  lemma {:induction false} NoBreakWithoutSlash(s: JsString)
    requires NoSlash(s)
    ensures Breaks(s) == 0
  {
    if |s| >= 2 {
      assert s[1] in s;
      NoBreakWithoutSlash(s[1..]);
    }
  }

  /** Kept on one line, `**` gets across no break, and every other part of a pattern across one at most. */
  lemma {:induction false} OneLineBreaksAreFew(p: JsString, boundary: bool, s: JsString)
    requires GlobMatch(true, p, boundary, s)
    ensures Breaks(s) <= |p|
    decreases |p|
  {
    if p == [] {
    } else if DoubleStar(p) {
      if boundary && |p| > 2 && p[2] == SLASH {
        var k :| 0 <= k <= |s| && (k == 0 || s[k - 1] == SLASH) && Spans(true, s[..k])
                 && GlobMatch(true, p[3..], true, s[k..]);
        OneLineBreaksAreFew(p[3..], true, s[k..]);
        BreaksOfCut(s, k);
      } else {
        var k :| 0 <= k <= |s| && Spans(true, s[..k]) && GlobMatch(true, p[2..], false, s[k..]);
        OneLineBreaksAreFew(p[2..], false, s[k..]);
        BreaksOfCut(s, k);
      }
    } else if p[0] == STAR {
      var k :| 0 <= k <= |s| && NoSlash(s[..k]) && GlobMatch(true, p[1..], false, s[k..]);
      OneLineBreaksAreFew(p[1..], false, s[k..]);
      NoBreakWithoutSlash(s[..k]);
      BreaksOfCut(s, k);
    } else {
      OneLineBreaksAreFew(p[1..], p[0] == SLASH, s[1..]);
    }
  }

  function Broken(n: nat): JsString {
    if n == 0 then [] else [10, SLASH] + Broken(n - 1)
  }

  lemma {:induction false} BreaksOfBroken(n: nat)
    ensures Breaks(Broken(n)) >= n && |Broken(n)| == 2 * n && (n > 0 ==> Broken(n)[2 * n - 1] == SLASH)
  {
    if n > 0 {
      BreaksOfBroken(n - 1);
      BreaksOfCut(Broken(n), 2);
      var two: JsString := [10, SLASH];
      assert Broken(n)[..2] == two && Broken(n)[2..] == Broken(n - 1);
      assert Breaks(two) == 1 + Breaks(two[1..]);
    }
  }

  /** A path the documented glob matches: its first `**` stands for `text`, every other part for as little as it can. */
  function Sample(p: JsString, boundary: bool, text: JsString): JsString {
    if p == [] then []
    else if DoubleStar(p) then
      var next := boundary && |p| > 2 && p[2] == SLASH;
      text + Sample(p[(if next then 3 else 2)..], next, [])
    else if p[0] == STAR then Sample(p[1..], false, text)
    else [if p[0] == QUESTION then 97 else p[0]] + Sample(p[1..], p[0] == SLASH, text)
  }

  lemma {:induction false} SampleMatches(p: JsString, boundary: bool, text: JsString)
    requires text == [] || text[|text| - 1] == SLASH
    ensures GlobMatch(false, p, boundary, Sample(p, boundary, text))
    decreases |p|
  {
    var s := Sample(p, boundary, text);
    if p == [] {
    } else if DoubleStar(p) {
      var next := boundary && |p| > 2 && p[2] == SLASH;
      var skip, k := if next then 3 else 2, |text|;
      SampleMatches(p[skip..], next, []);
      assert s[..k] == text && s[k..] == Sample(p[skip..], next, []);
      assert Spans(false, s[..k]) && GlobMatch(false, p[skip..], next, s[k..]);
    } else if p[0] == STAR {
      SampleMatches(p[1..], false, text);
      assert s[..0] == [] && s[0..] == s;
      assert NoSlash(s[..0]) && GlobMatch(false, p[1..], false, s[0..]);
    } else {
      SampleMatches(p[1..], p[0] == SLASH, text);
      assert s[1..] == Sample(p[1..], p[0] == SLASH, text);
    }
  }

  lemma {:induction false} SampleKeepsBreaks(p: JsString, boundary: bool, text: JsString)
    requires HasDoubleStar(p)
    ensures Breaks(Sample(p, boundary, text)) >= Breaks(text)
    decreases |p|
  {
    var s := Sample(p, boundary, text);
    if DoubleStar(p) {
      BreaksOfCut(s, |text|);
      assert s[..|text|] == text;
    } else if p[0] == STAR {
      SampleKeepsBreaks(p[1..], false, text);
    } else {
      SampleKeepsBreaks(p[1..], p[0] == SLASH, text);
      BreaksOfCut(s, 1);
      assert s[1..] == Sample(p[1..], p[0] == SLASH, text);
    }
  }

  /**
   * A pattern means what is documented, on every string, exactly when it has no `**`: any other one is documented
   * to match a path with more breaks than its compiled form can get across.
   */
  lemma PatternMeansAsDocumentedIff(pattern: JsString)
    ensures (forall s: JsString :: Agrees(pattern, s)) <==> !HasDoubleStar(pattern)
  {
    if HasDoubleStar(pattern) {
      var text := Broken(|pattern| + 1);
      var s := Sample(pattern, true, text);
      BreaksOfBroken(|pattern| + 1);
      SampleMatches(pattern, true, text);
      SampleKeepsBreaks(pattern, true, text);
      CompilationPreservesMeaning(pattern, s);
      if GlobMatch(true, pattern, true, s) { OneLineBreaksAreFew(pattern, true, s); }
      assert !Agrees(pattern, s);
    } else {
      forall s: JsString ensures Agrees(pattern, s) {
        CompilationPreservesMeaning(pattern, s);
        WithoutDoubleStar(pattern, true, s);
      }
    }
  }

  /** A leading `**` segment matches zero segments: whatever `rest` matches, it matches with the prefix too. */
  lemma LeadingSegmentsMayBeAbsent(rest: JsString, s: JsString)
    requires NoLineTerminator(s) && GlobMatch(false, rest, true, s)
    ensures var p := [STAR, STAR, SLASH] + rest;
            && ParseRegExp(RegExpText(p)).Some?
            && Matches(ParseRegExp(RegExpText(p)).value, s)
  {
    var p := [STAR, STAR, SLASH] + rest;
    PathsMatchAsDocumented(p, s);
    assert p[3..] == rest;
    assert s[..0] == [] && s[0..] == s && Spans(false, s[..0]);
  }

  /* ---- the loop ---- */

  /** What is still to be written once the characters before `i` are consumed. */
  function Pending(pattern: JsString, i: nat): JsString
    requires i <= |pattern|
  {
    Emit(pattern[i..], i == 0 || pattern[i - 1] == SLASH)
  }

  lemma Written(pattern: JsString, was: JsString, fragment: JsString, i: nat, after: nat)
    requires i <= |pattern| && after <= |pattern| && Pending(pattern, i) == fragment + Pending(pattern, after)
    ensures (was + fragment) + Pending(pattern, after) == was + Pending(pattern, i)
  {
  }

  lemma NothingPending(pattern: JsString)
    ensures Pending(pattern, 0) == Emit(pattern, true) && Pending(pattern, |pattern|) == []
  {
    assert pattern[0..] == pattern && pattern[|pattern|..] == [];
  }

  /** The fragment for the character at `i`, and the first index it leaves to be handled. */
  method Translate(pattern: JsString, i: nat) returns (fragment: JsString, after: nat)
    requires i < |pattern|
    ensures i < after <= |pattern|
    ensures Pending(pattern, i) == fragment + Pending(pattern, after)
  {
    var c := pattern[i];
    ghost var p := pattern[i..];
    assert p[0] == c && (|p| > 1 ==> p[1] == pattern[i + 1]) && (|p| > 2 ==> p[2] == pattern[i + 2]);
    if c == STAR && i + 1 < |pattern| && pattern[i + 1] == STAR {
      var precededBySlashOrStart := i == 0 || pattern[i - 1] == SLASH;
      var followedBySlash := i + 2 < |pattern| && pattern[i + 2] == SLASH;
      if precededBySlashOrStart && followedBySlash {
        fragment, after := SEGMENTS, i + 3;
      } else {
        fragment, after := ANYTHING, i + 2;
      }
    } else {
      after := i + 1;
      if c == STAR {
        fragment := WITHIN;
      } else if c == QUESTION {
        fragment := ONE;
      } else if Escaped(c) {
        fragment := [BACKSLASH, c];
      } else {
        fragment := [c];
      }
    }
    assert p[after - i..] == pattern[after..];
  }

  /** The characters are visited one by one; `resume` is the first index not yet consumed. */
  method GlobToRegExp(pattern: JsString) returns (text: JsString)
    ensures text == RegExpText(pattern)
  {
    var out: JsString := [];
    var resume := 0;
    NothingPending(pattern);
    for i := 0 to |pattern|
      invariant i <= resume <= |pattern|
      invariant out + Pending(pattern, resume) == Emit(pattern, true)
    {
      if i < resume {
        continue;
      }
      var fragment, after := Translate(pattern, i);
      Written(pattern, out, fragment, i, after);
      out, resume := out + fragment, after;
    }
    text := [CARET] + out + [DOLLAR];
  }
}
