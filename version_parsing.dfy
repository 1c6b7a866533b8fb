/**
 * Parsing a dependency's version constraint (`parseVersion`,
 * `removeXVersionNumber`) and deciding whether the exact-version registry
 * endpoint can serve it (`hitVersionEndpoint`), from src/utils/package.utils.js.
 */
module VersionParsing {
  import opened Wrappers
  import opened Text
  import opened Patterns
  import opened Errors

  /**
   * The second element of `parseVersion`'s result: absent (`undefined`, for the
   * one-element result of "latest" and "*"), `null`, or the matched symbol.
   */
  datatype Qualifier = Undefined | Null | Op(symbol: string)

  /** `[versionNumber, qualifier]` as `parseVersion` returns it. */
  datatype Constraint = Constraint(versionNumber: string, qualifier: Qualifier)

  predicate IsLatest(s: string) { s == "latest" || s == "*" }

  predicate IsLeadingSymbol(c: char) { c == '*' || c == '^' || c == '~' }

  predicate IsAngle(c: char) { c == '>' || c == '<' }

  function FindAngle(s: string): (r: Option<nat>)
    ensures r.Some? ==> r.value < |s| && IsAngle(s[r.value])
    ensures r.Some? ==> forall j | 0 <= j < r.value :: !IsAngle(s[j])
    ensures r.None? ==> forall j | 0 <= j < |s| :: !IsAngle(s[j])
  {
    FindAngleFrom(s, 0)
  }

  /** The scan behind `FindAngle`: the leftmost angle at or after `from`. */
  function FindAngleFrom(s: string, from: nat): (r: Option<nat>)
    requires from <= |s|
    ensures r.Some? ==> from <= r.value < |s| && IsAngle(s[r.value])
    ensures r.Some? ==> forall j | from <= j < r.value :: !IsAngle(s[j])
    ensures r.None? ==> forall j | from <= j < |s| :: !IsAngle(s[j])
    decreases |s| - from
  {
    if from == |s| then None
    else if IsAngle(s[from]) then Some(from)
    else FindAngleFrom(s, from + 1)
  }

  /**
   * The match of `/^[*^~]|>=?|<=?/`: a leading `*`, `^` or `~`, else the first
   * `>` or `<` anywhere, taking a `=` that follows it; `null` when neither occurs.
   */
  function QualifierOf(s: string): (q: Qualifier)
    ensures q != Undefined
  {
    if |s| > 0 && IsLeadingSymbol(s[0]) then Op([s[0]])
    else
      match FindAngle(s)
      case None => Null
      case Some(i) => Op(if i + 1 < |s| && s[i + 1] == '=' then s[i..i + 2] else s[i..i + 1])
  }

  /** What `QualifierOf` matches: the leading symbol, else the first angle with its `=`, else nothing. */
  lemma QualifierOfMatches(s: string)
    ensures |s| > 0 && IsLeadingSymbol(s[0]) ==> QualifierOf(s) == Op([s[0]])
    ensures !(|s| > 0 && IsLeadingSymbol(s[0])) ==>
      (QualifierOf(s).Null? <==> forall j | 0 <= j < |s| :: !IsAngle(s[j]))
    ensures !(|s| > 0 && IsLeadingSymbol(s[0])) && QualifierOf(s).Op? ==>
      exists i | 0 <= i < |s| ::
        && IsAngle(s[i])
        && (forall j | 0 <= j < i :: !IsAngle(s[j]))
        && QualifierOf(s).symbol == (if i + 1 < |s| && s[i + 1] == '=' then s[i..i + 2] else s[i..i + 1])
  {
    if !(|s| > 0 && IsLeadingSymbol(s[0])) && FindAngle(s).Some? {
      var i := FindAngle(s).value;
      var sym := if i + 1 < |s| && s[i + 1] == '=' then s[i..i + 2] else s[i..i + 1];
      assert QualifierOf(s) == Op(sym);
      if i + 1 < |s| && s[i + 1] == '=' {
        assert sym == s[i..i + 2];
      } else {
        assert sym == s[i..i + 1];
      }
      assert 0 <= i < |s| && IsAngle(s[i]) && (forall j | 0 <= j < i :: !IsAngle(s[j])) && QualifierOf(s).symbol == sym;
      assert exists k | 0 <= k < |s| ::
        && IsAngle(s[k])
        && (forall j | 0 <= j < k :: !IsAngle(s[j]))
        && QualifierOf(s).symbol == (if k + 1 < |s| && s[k + 1] == '=' then s[k..k + 2] else s[k..k + 1]);
    }
  }

  /** Leftmost start of `(\d+\.x\.\d+|\d+\.x\.x|\d+\.\d+\.x)` in `s`. */
  function FindXTriple(s: string): (r: Option<nat>)
    ensures r.Some? ==> r.value < |s| && XTripleEnd(s, r.value).Some?
    ensures r.Some? ==> forall p | 0 <= p < r.value :: XTripleEnd(s, p).None?
    ensures r.None? ==> forall p | 0 <= p < |s| :: XTripleEnd(s, p).None?
  {
    FindXTripleFrom(s, 0)
  }

  /** The scan behind `FindXTriple`: the leftmost match at or after `from`. */
  function FindXTripleFrom(s: string, from: nat): (r: Option<nat>)
    requires from <= |s|
    ensures r.Some? ==> from <= r.value < |s| && XTripleEnd(s, r.value).Some?
    ensures r.Some? ==> forall p | from <= p < r.value :: XTripleEnd(s, p).None?
    ensures r.None? ==> forall p | from <= p < |s| :: XTripleEnd(s, p).None?
    decreases |s| - from
  {
    if from == |s| then None
    else if XTripleEnd(s, from).Some? then Some(from)
    else FindXTripleFrom(s, from + 1)
  }

  /**
   * `FindXTriple` against the pattern itself: it finds the leftmost position
   * where `XRangeAt` holds, and `None` means the pattern matches nowhere.
   */
  lemma FindXTripleLeftmost(s: string)
    ensures FindXTriple(s).Some? ==>
      XRangeAt(s, FindXTriple(s).value) && forall p | 0 <= p < FindXTriple(s).value :: !XRangeAt(s, p)
    ensures FindXTriple(s).None? <==> forall p | 0 <= p < |s| :: !XRangeAt(s, p)
  {
    forall p | 0 <= p <= |s| ensures XTripleEnd(s, p).Some? <==> XRangeAt(s, p) {
      XTripleEndMatches(s, p);
    }
  }

  /** A middle or last component of an x-range match: the letter `x` or a run of digits. */
  predicate IsSlot(t: string) { t == "x" || (t != [] && AllDigits(t)) }

  /** The three dot-separated components of the x-range match that starts at `p`. */
  function XMatchParts(s: string, p: nat): (parts: seq<string>)
    requires p <= |s| && XTripleEnd(s, p).Some?
    ensures |parts| == 3 && Join(parts, '.') == s[p..XTripleEnd(s, p).value]
    ensures parts[0] != [] && AllDigits(parts[0]) && IsSlot(parts[1]) && IsSlot(parts[2])
    ensures parts[1] == "x" || parts[2] == "x"
    ensures forall i | 0 <= i < 3 :: '.' !in parts[i]
  {
    var e := XTripleEnd(s, p).value;
    var a := RunEnd(s, p);
    if a + 3 < |s| && s[a + 1] == 'x' && s[a + 2] == '.' then
      assert (IsDigit(s[a + 3]) && e == RunEnd(s, a + 3)) || (s[a + 3] == 'x' && e == a + 4);
      XMiddleSlot(s, p, a, e);
      [s[p..a], "x", s[a + 3..e]]
    else
      var b := RunEnd(s, a + 1);
      XLastSlot(s, p, a, b, e);
      [s[p..a], s[a + 1..b], "x"]
  }

  /** An x-range match with `x` in the middle: digits, `x`, then `x` or digits. */
  lemma XMiddleSlot(s: string, p: nat, a: nat, e: nat)
    requires p < |s| && IsDigit(s[p]) && a == RunEnd(s, p)
    requires a + 3 < |s| && s[a] == '.' && s[a + 1] == 'x' && s[a + 2] == '.'
    requires (IsDigit(s[a + 3]) && e == RunEnd(s, a + 3)) || (s[a + 3] == 'x' && e == a + 4)
    ensures a + 3 < e
    ensures Join([s[p..a], "x", s[a + 3..e]], '.') == s[p..e]
    ensures s[p..a] != [] && AllDigits(s[p..a]) && '.' !in s[p..a]
    ensures IsSlot(s[a + 3..e]) && '.' !in s[a + 3..e]
  {
    SliceAroundSeparators(s, p, a, a + 2, e, '.');
    assert s[a + 1..a + 2] == "x";
    JoinThree([s[p..a], "x", s[a + 3..e]], '.');
    XThirdSlot(s, a + 3, e);
    DigitRun(s, p);
  }

  /** The third component of a middle-`x` match is `x` or a run of digits. */
  lemma XThirdSlot(s: string, i: nat, e: nat)
    requires i < |s| && ((IsDigit(s[i]) && e == RunEnd(s, i)) || (s[i] == 'x' && e == i + 1))
    ensures i < e <= |s|
    ensures IsSlot(s[i..e]) && '.' !in s[i..e]
  {
    if IsDigit(s[i]) {
      DigitRun(s, i);
    } else {
      assert s[i..e] == "x";
    }
  }

  /** A run of digits starting at a digit is a non-empty numeral with no ".". */
  lemma DigitRun(s: string, i: nat)
    requires i < |s| && IsDigit(s[i])
    ensures i < RunEnd(s, i)
    ensures var t := s[i..RunEnd(s, i)]; t != [] && AllDigits(t) && '.' !in t
  {
    var t := s[i..RunEnd(s, i)];
    assert forall k | 0 <= k < |t| :: t[k] == s[i + k];
  }

  /** An x-range match with `x` last: digits, digits, `x`. */
  lemma XLastSlot(s: string, p: nat, a: nat, b: nat, e: nat)
    requires p <= |s| && XTripleEnd(s, p) == Some(e) && a == RunEnd(s, p)
    requires !(a + 3 < |s| && s[a + 1] == 'x' && s[a + 2] == '.')
    requires a + 1 <= |s| && b == RunEnd(s, a + 1)
    ensures a < b < e
    ensures var parts := [s[p..a], s[a + 1..b], "x"];
      Join(parts, '.') == s[p..e] &&
      parts[0] != [] && AllDigits(parts[0]) && IsSlot(parts[1]) && forall i | 0 <= i < 3 :: '.' !in parts[i]
  {
    SliceAroundSeparators(s, p, a, b, e, '.');
    assert s[b + 1..e] == "x";
    JoinThree([s[p..a], s[a + 1..b], "x"], '.');
  }

  /** A digit third component is taken greedily: the match does not stop before a digit. */
  lemma XMatchGreedy(s: string, p: nat)
    requires p <= |s| && XTripleEnd(s, p).Some? && XMatchParts(s, p)[2] != "x"
    ensures XTripleEnd(s, p).value == |s| || !IsDigit(s[XTripleEnd(s, p).value])
  {
    var a := RunEnd(s, p);
    assert a + 3 < |s| && s[a + 1] == 'x' && s[a + 2] == '.' && IsDigit(s[a + 3]);
    assert XTripleEnd(s, p).value == RunEnd(s, a + 3);
  }

  /** Splitting the x-range match on "." gives its three components. */
  lemma XMatchSplit(s: string, p: nat)
    requires p <= |s| && XTripleEnd(s, p).Some?
    ensures Split(s[p..XTripleEnd(s, p).value], '.') == XMatchParts(s, p)
  {
    SplitJoin(XMatchParts(s, p), '.');
  }

  /**
   * `removeXVersionNumber`: split on ".", turn an `x`/`X` second component into
   * "0" and the `x`/`X` that starts the third component into "0", join again.
   */
  function ZeroXSlots(m: string): string
    requires |Split(m, '.')| >= 3
  {
    var arr := Split(m, '.');
    var second := if arr[1] == "x" || arr[1] == "X" then "0" else arr[1];
    var third := if |arr[2]| > 0 && (arr[2][0] == 'x' || arr[2][0] == 'X') then "0" + arr[2][1..] else arr[2];
    Join(arr[1 := second][2 := third], '.')
  }

  /** The same operation on the array the source mutates in place. */
  method RemoveXVersionNumber(m: string) returns (r: string)
    requires |Split(m, '.')| >= 3
    ensures r == ZeroXSlots(m)
  {
    var parts := Split(m, '.');
    var arr := new string[|parts|](i requires 0 <= i < |parts| => parts[i]);
    assert arr[..] == parts;
    ghost var second := if parts[1] == "x" || parts[1] == "X" then "0" else parts[1];
    ghost var third := if |parts[2]| > 0 && (parts[2][0] == 'x' || parts[2][0] == 'X') then "0" + parts[2][1..] else parts[2];
    if arr[1] == "x" || arr[1] == "X" {
      arr[1] := "0";
    }
    if |arr[2]| > 0 && (arr[2][0] == 'x' || arr[2][0] == 'X') {
      arr[2] := "0" + arr[2][1..];
    }
    assert arr[..] == parts[1 := second][2 := third];
    r := Join(arr[..], '.');
  }

  function ZeroIfX(t: string): string { if t == "x" then "0" else t }

  /**
   * `parseVersion`: "latest" and "*" alone give a one-element result; an x-range
   * anywhere gives just that match with its `x` components zeroed; otherwise a
   * dotless input is padded with ".0.0" and the version is the first
   * `\d+.\d+.\d+` to the end of its line, or the match is `null` and the
   * source throws. The qualifier is read from the (padded) input.
   */
  function ParseVersion(s: string): (r: Result<Constraint, Error>)
    ensures IsLatest(s) ==> r == Success(Constraint(s, Undefined))
    ensures r.Success? && r.value.qualifier.Undefined? ==> IsLatest(s)
  {
    if IsLatest(s) then Success(Constraint(s, Undefined))
    else
      match FindXTriple(s)
      case Some(p) =>
        XMatchSplit(s, p);
        Success(Constraint(ZeroXSlots(s[p..XTripleEnd(s, p).value]), QualifierOf(s)))
      case None =>
        var padded := if '.' in s then s else s + ".0.0";
        match FindLooseTriple(padded)
        case None => Failure(MalformedVersion(padded))
        case Some(p) => Success(Constraint(padded[p..LineEnd(padded, p)], QualifierOf(padded)))
  }

  /**
   * `hitVersionEndpoint`: the version holds a `\d+.\d+.\d+` and the qualifier
   * is `null` or contains "=". With an `undefined` qualifier the source would
   * throw on `.match`, which the short-circuit avoids for "latest" and "*".
   */
  function HitVersionEndpoint(versionNumber: string, qualifier: Qualifier): bool
    requires qualifier.Undefined? ==> FindLooseTriple(versionNumber).None?
  {
    FindLooseTriple(versionNumber).Some? &&
    (qualifier.Null? || (qualifier.Op? && '=' in qualifier.symbol))
  }

  /**
   * `hitVersionEndpoint` is true exactly when `\d+.\d+.\d+` matches somewhere in
   * the version and the qualifier is `null` or holds "=".
   */
  lemma HitVersionEndpointMatches(versionNumber: string, qualifier: Qualifier)
    requires qualifier.Undefined? ==> FindLooseTriple(versionNumber).None?
    ensures HitVersionEndpoint(versionNumber, qualifier) <==>
      (exists p | 0 <= p < |versionNumber| :: LooseGroupsAt(versionNumber, p, 2)) &&
      (qualifier.Null? || (qualifier.Op? && '=' in qualifier.symbol))
  {
    var found := FindLooseTriple(versionNumber);
    if found.Some? {
      assert LooseGroupsAt(versionNumber, found.value, 2);
      assert exists p | 0 <= p < |versionNumber| :: LooseGroupsAt(versionNumber, p, 2);
      assert HitVersionEndpoint(versionNumber, qualifier) == (qualifier.Null? || (qualifier.Op? && '=' in qualifier.symbol));
    } else {
      assert forall p | 0 <= p < |versionNumber| :: !LooseGroupsAt(versionNumber, p, 2);
    }
  }

  /** A parse result `hitVersionEndpoint` can be asked about: an `undefined` qualifier comes with a version holding no triple. */
  predicate Routable(parsed: Result<Constraint, Error>)
  {
    parsed.Success? && parsed.value.qualifier.Undefined? ==> FindLooseTriple(parsed.value.versionNumber).None?
  }

  /** Every result of `parseVersion` can be routed: only "latest" and "*" give `undefined`, and they hold no triple. */
  lemma ParsedIsRoutable(s: string)
    ensures Routable(ParseVersion(s))
  {
    if ParseVersion(s).Success? {
      ParsedVersionHasTriple(s);
    }
  }

  // ---------------------------------------------------------------------------
  // Properties of parsing

  /** An x-range match keeps its digit components and turns each `x` into "0". */
  lemma XSlotsZeroed(s: string, p: nat)
    requires p <= |s| && XTripleEnd(s, p).Some?
    ensures Split(s[p..XTripleEnd(s, p).value], '.') == XMatchParts(s, p)
    ensures var parts := XMatchParts(s, p);
      ZeroXSlots(s[p..XTripleEnd(s, p).value]) == parts[0] + "." + ZeroIfX(parts[1]) + "." + ZeroIfX(parts[2])
  {
    var parts := XMatchParts(s, p);
    XMatchSplit(s, p);
    assert parts[1] != "X" by {
      if parts[1] != "x" { assert IsDigit(parts[1][0]); }
    }
    if parts[2] == "x" {
      assert "0" + parts[2][1..] == "0";
    } else {
      assert IsDigit(parts[2][0]);
    }
    var zeroed := [parts[0], ZeroIfX(parts[1]), ZeroIfX(parts[2])];
    assert parts[1 := ZeroIfX(parts[1])][2 := ZeroIfX(parts[2])] == zeroed;
    JoinThree(zeroed, '.');
  }

  /** Three non-empty digit runs joined by dots hold a `\d+.\d+.\d+` at their start. */
  lemma DottedTripleIsLoose(a: string, b: string, c: string)
    requires a != [] && b != [] && c != [] && AllDigits(a) && AllDigits(b) && AllDigits(c)
    ensures LooseGroupsAt(a + "." + b + "." + c, 0, 2)
  {
    var t := a + "." + b + "." + c;
    var j := |a| + 1 + |b|;
    assert t[j + 1] == c[0];
    GroupsFromRun(t, |a| + 1, j, 1);
    GroupsFromRun(t, 0, |a|, 2);
  }

  /** Every parsed version other than "latest" and "*" holds a digit triple; those two hold none. */
  lemma {:induction false} ParsedVersionHasTriple(s: string)
    requires ParseVersion(s).Success?
    ensures FindLooseTriple(ParseVersion(s).value.versionNumber).Some? <==> !IsLatest(s)
  {
    var v := ParseVersion(s).value.versionNumber;
    if IsLatest(s) {
      forall p | 0 <= p < |v| ensures !LooseGroupsAt(v, p, 2) {
        assert !IsDigit(v[p]);
      }
    } else {
      match FindXTriple(s)
      case Some(p) =>
        XSlotsZeroed(s, p);
        var parts := XMatchParts(s, p);
        DottedTripleIsLoose(parts[0], ZeroIfX(parts[1]), ZeroIfX(parts[2]));
      case None =>
        var padded := if '.' in s then s else s + ".0.0";
        var p := FindLooseTriple(padded).value;
        LooseGroupsInLine(padded, p, p, 2);
        assert LooseGroupsAt(v, 0, 2);
    }
  }

  /**
   * The route: a parsed constraint takes the exact-version endpoint exactly when
   * it is not "latest"/"*" and its qualifier is `null`, ">=" or "<=".
   */
  lemma ExactRouteIff(s: string)
    requires ParseVersion(s).Success?
    ensures var c := ParseVersion(s).value;
      c.qualifier.Undefined? ==> FindLooseTriple(c.versionNumber).None?
    ensures var c := ParseVersion(s).value;
      HitVersionEndpoint(c.versionNumber, c.qualifier) <==>
        !IsLatest(s) && (c.qualifier == Null || c.qualifier == Op(">=") || c.qualifier == Op("<="))
  {
    ParsedVersionHasTriple(s);
    if !IsLatest(s) {
      var t := if FindXTriple(s).Some? || '.' in s then s else s + ".0.0";
      assert ParseVersion(s).value.qualifier == QualifierOf(t);
      QualifierHasEquals(t);
    }
  }

  /** The qualifier contains "=" exactly when it is ">=" or "<=". */
  lemma QualifierHasEquals(t: string)
    ensures var q := QualifierOf(t);
      q.Op? ==> ('=' in q.symbol <==> q.symbol == ">=" || q.symbol == "<=")
  {
    var q := QualifierOf(t);
    if q.Op? && !(|t| > 0 && IsLeadingSymbol(t[0])) {
      var i :| 0 <= i < |t| && IsAngle(t[i]) && (forall j | 0 <= j < i :: !IsAngle(t[j])) &&
        q.symbol == (if i + 1 < |t| && t[i + 1] == '=' then t[i..i + 2] else t[i..i + 1]);
      if i + 1 < |t| && t[i + 1] == '=' {
        assert q.symbol == [t[i], '='];
      } else {
        assert q.symbol == [t[i]];
      }
    }
  }

  /**
   * An input with no "." and no x-range is padded with ".0.0": a qualifier
   * prefix without digits followed by a run of digits parses to that run + ".0.0".
   */
  lemma DotlessInputPadded(q: string, d: string)
    requires forall i | 0 <= i < |q| :: !IsDigit(q[i]) && q[i] != '.'
    requires d != [] && AllDigits(d)
    ensures ParseVersion(q + d) == Success(Constraint(d + ".0.0", QualifierOf(q + d + ".0.0")))
  {
    var s := q + d;
    assert s[|q|] == d[0];
    assert !IsLatest(s);
    assert '.' !in s by {
      forall i | 0 <= i < |s| ensures s[i] != '.' {
        if i >= |q| { assert s[i] == d[i - |q|]; }
      }
    }
    DotlessHasNoXRange(s);
    var padded := s + ".0.0";
    PaddedLooseMatch(q, d);
    assert ParseVersion(s) == Success(Constraint(padded[|q|..LineEnd(padded, |q|)], QualifierOf(padded)));
    assert padded[|q|..LineEnd(padded, |q|)] == d + ".0.0";
  }

  /** Without a "." the x-range pattern matches nowhere. */
  lemma DotlessHasNoXRange(s: string)
    requires '.' !in s
    ensures FindXTriple(s).None?
  {
    forall p | 0 <= p < |s| ensures XTripleEnd(s, p).None? {
      var a := RunEnd(s, p);
      assert a < |s| ==> s[a] != '.';
    }
  }

  /** In `q + d + ".0.0"`, with no digit in `q`, the loose pattern first matches at `d` and runs to the end. */
  lemma PaddedLooseMatch(q: string, d: string)
    requires forall i | 0 <= i < |q| :: !IsDigit(q[i]) && q[i] != '.'
    requires d != [] && AllDigits(d)
    ensures FindLooseTriple(q + d + ".0.0") == Some(|q|)
    ensures LineEnd(q + d + ".0.0", |q|) == |q + d + ".0.0"|
    ensures (q + d + ".0.0")[|q|..] == d + ".0.0"
  {
    var padded := q + d + ".0.0";
    assert padded == q + (d + "." + "0" + "." + "0");
    DottedTripleIsLoose(d, "0", "0");
    var tail := d + "." + "0" + "." + "0";
    forall i | 0 <= i < |tail| ensures padded[|q| + i] == tail[i] && !IsLineTerminator(tail[i]) {
      if i < |d| { assert tail[i] == d[i]; }
    }
    LooseGroupsShift(q, tail, 0, 2);
    forall p | 0 <= p < |q| ensures !LooseGroupsAt(padded, p, 2) {
      assert padded[p] == q[p];
    }
    assert padded[|q|..] == tail;
  }

  /** A match of the loose pattern is unaffected by text in front of it. */
  lemma {:induction false} LooseGroupsShift(q: string, t: string, i: nat, more: nat)
    requires LooseGroupsAt(t, i, more)
    ensures LooseGroupsAt(q + t, |q| + i, more)
    decreases |t| - i, more, 1
  {
    if more > 0 {
      LooseAfterDigitShift(q, t, i + 1, more);
    }
  }

  lemma {:induction false} LooseAfterDigitShift(q: string, t: string, j: nat, more: nat)
    requires more > 0 && LooseGroupsAfterDigit(t, j, more)
    ensures LooseGroupsAfterDigit(q + t, |q| + j, more)
    decreases |t| - j, more, 0
  {
    if !IsLineTerminator(t[j]) && LooseGroupsAt(t, j + 1, more - 1) {
      LooseGroupsShift(q, t, j + 1, more - 1);
    } else {
      LooseAfterDigitShift(q, t, j + 1, more);
    }
  }

  // ---------------------------------------------------------------------------
  // Worked inputs

  /** "^1" is padded to "1.0.0" and keeps its caret. */
  lemma CaretMajorOnlyIsPadded()
    ensures ParseVersion("^1") == Success(Constraint("1.0.0", Op("^")))
  {
    DotlessInputPadded("^", "1");
    assert "^" + "1" == "^1";
    assert "1" + ".0.0" == "1.0.0";
    assert "^" + "1" + ".0.0" == "^1.0.0";
    assert QualifierOf("^1.0.0") == Op("^");
  }

  /** "^1.2" has a dot, so it is not padded, and holds no digit triple: parsing throws. */
  lemma TwoComponentsThrow()
    ensures ParseVersion("^1.2") == Failure(MalformedVersion("^1.2"))
  {
    var s := "^1.2";
    forall p | 0 <= p < |s| ensures XTripleEnd(s, p).None? && !LooseGroupsAt(s, p, 2) {
      if p == 1 {
        assert !LooseGroupsAfterDigit(s, 4, 1);
        assert !LooseGroupsAfterDigit(s, 3, 1);
        assert !LooseGroupsAt(s, 3, 1);
        assert !LooseGroupsAfterDigit(s, 2, 2);
      } else if p == 3 {
        assert !LooseGroupsAfterDigit(s, 4, 2);
      }
    }
  }

  /** "~1.2.x" takes the x-range route: "1.2.0" with qualifier "~". */
  lemma TildeXRangeZeroed()
    ensures ParseVersion("~1.2.x") == Success(Constraint("1.2.0", Op("~")))
  {
    var s := "~1.2.x";
    TildeXRangeMatch();
    XSlotsZeroed(s, 1);
    assert ZeroXSlots(s[1..6]) == "1.2.0" by {
      assert "1" + "." + "2" + "." + "0" == "1.2.0";
    }
    assert QualifierOf(s) == Op("~");
  }

  lemma TildeXRangeMatch()
    ensures FindXTriple("~1.2.x") == Some(1)
    ensures XTripleEnd("~1.2.x", 1) == Some(6)
    ensures XMatchParts("~1.2.x", 1) == ["1", "2", "x"]
  {
    var s := "~1.2.x";
    assert RunEnd(s, 2) == 2 && RunEnd(s, 1) == 2;
    assert RunEnd(s, 4) == 4 && RunEnd(s, 3) == 4;
    assert XTripleEnd(s, 0).None?;
    assert XTripleEnd(s, 1) == Some(6);
    assert s[3] != 'x';
    assert s[1..2] == "1" && s[3..4] == "2";
  }

  /** "^1.x.3" takes the x-range route through its `\d+\.x\.\d+` alternative: "1.0.3" with qualifier "^". */
  lemma CaretXMiddleZeroed()
    ensures ParseVersion("^1.x.3") == Success(Constraint("1.0.3", Op("^")))
  {
    var s := "^1.x.3";
    CaretXMiddleMatch();
    XSlotsZeroed(s, 1);
    assert ZeroXSlots(s[1..6]) == "1.0.3" by {
      assert "1" + "." + "0" + "." + "3" == "1.0.3";
    }
    assert QualifierOf(s) == Op("^");
  }

  lemma CaretXMiddleMatch()
    ensures FindXTriple("^1.x.3") == Some(1)
    ensures XTripleEnd("^1.x.3", 1) == Some(6)
    ensures XMatchParts("^1.x.3", 1) == ["1", "x", "3"]
  {
    var s := "^1.x.3";
    assert RunEnd(s, 2) == 2 && RunEnd(s, 1) == 2;
    assert RunEnd(s, 6) == 6 && RunEnd(s, 5) == 6;
    assert XTripleEnd(s, 0).None?;
    assert XTripleEnd(s, 1) == Some(6);
    assert s[1..2] == "1" && s[5..6] == "3";
  }

  /** ">= 0.3.0" keeps ">=" and the version "0.3.0", so it takes the exact-version route. */
  lemma GreaterOrEqualTakesExactRoute()
    ensures ParseVersion(">= 0.3.0") == Success(Constraint("0.3.0", Op(">=")))
    ensures HitVersionEndpoint("0.3.0", Op(">="))
  {
    GreaterOrEqualMatch();
    GreaterOrEqualQualifier();
    assert ">= 0.3.0"[4] == '.';
  }

  lemma GreaterOrEqualQualifier()
    ensures QualifierOf(">= 0.3.0") == Op(">=")
  {
    var s := ">= 0.3.0";
    assert FindAngle(s) == Some(0);
    assert s[0..2] == ">=";
  }

  lemma GreaterOrEqualMatch()
    ensures FindXTriple(">= 0.3.0").None?
    ensures FindLooseTriple(">= 0.3.0") == Some(3) && LineEnd(">= 0.3.0", 3) == 8
    ensures ">= 0.3.0"[3..8] == "0.3.0" && FindLooseTriple("0.3.0") == Some(0)
  {
    var s := ">= 0.3.0";
    forall p | 0 <= p < |s| ensures XTripleEnd(s, p).None? {
      var a := RunEnd(s, p);
      if p == 3 { assert a == 4; } else if p == 5 { assert a == 6; } else if p == 7 { assert a == 8; }
    }
    DottedTripleIsLoose("0", "3", "0");
    assert "0" + "." + "3" + "." + "0" == "0.3.0";
    LooseGroupsShift(">= ", "0.3.0", 0, 2);
    assert ">= " + "0.3.0" == s;
    assert FindLooseTriple(s) == Some(3);
    assert LineEnd(s, 3) == |s|;
    assert s[3..|s|] == "0.3.0";
  }

  /** A plain "1.0.0" has a `null` qualifier and takes the exact-version route. */
  lemma PlainVersionTakesExactRoute()
    ensures ParseVersion("1.0.0") == Success(Constraint("1.0.0", Null))
    ensures HitVersionEndpoint("1.0.0", Null)
  {
    var s := "1.0.0";
    PlainVersionHasNoXRange();
    PlainVersionIsLoose();
    assert s[0..|s|] == s;
    assert FindAngle(s) == None;
  }

  lemma PlainVersionHasNoXRange()
    ensures FindXTriple("1.0.0").None?
  {
    var s := "1.0.0";
    forall p | 0 <= p < |s| ensures XTripleEnd(s, p).None? {
      var a := RunEnd(s, p);
      if p == 0 { assert a == 1; } else if p == 2 { assert a == 3; } else if p == 4 { assert a == 5; }
    }
  }

  lemma PlainVersionIsLoose()
    ensures FindLooseTriple("1.0.0") == Some(0) && LineEnd("1.0.0", 0) == 5
  {
    var s := "1.0.0";
    DottedTripleIsLoose("1", "0", "0");
    assert "1" + "." + "0" + "." + "0" == s;
  }
}
