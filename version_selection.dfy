/**
 * Picking one published version out of a package's catalog: `parseVersionNumber`,
 * the four selectors, `getLastVersion` and `chooseVersion` of
 * src/utils/package.utils.js.
 */
module VersionSelection {
  import opened Wrappers
  import opened Text
  import opened Patterns
  import opened Errors
  import opened VersionParsing

  /**
   * The metadata of one published version: its `version` field and its
   * `dependencies` object, an ordered list of (name, constraint) entries;
   * `None` when the field is missing or falsy.
   */
  datatype Metadata = Metadata(version: string, dependencies: Option<seq<(string, string)>>)

  /** A package's `versions` object: entries in key order, as `Object.keys` lists them. */
  type Catalog = seq<(string, Metadata)>

  /** What `Object.keys` gives for a catalog. */
  function Keys(c: Catalog): (keys: seq<string>)
    ensures |keys| == |c| && forall i | 0 <= i < |c| :: keys[i] == c[i].0
  {
    seq(|c|, i requires 0 <= i < |c| => c[i].0)
  }

  predicate DistinctKeys(c: Catalog) {
    forall i, j | 0 <= i < j < |c| :: c[i].0 != c[j].0
  }

  /** Index of the entry `versions[key]` reads. */
  function KeyIndex(c: Catalog, key: string): (r: Option<nat>)
    ensures r.Some? ==> r.value < |c| && c[r.value].0 == key
    ensures r.Some? ==> forall j | 0 <= j < r.value :: c[j].0 != key
    ensures r.None? ==> forall j | 0 <= j < |c| :: c[j].0 != key
  {
    var at := (j: nat) => j < |c| && c[j].0 == key;
    assert forall j: nat | j < |c| :: at(j) == (c[j].0 == key);
    FindFirst(|c|, 0, at)
  }

  /** `versions[key]`: the entry stored under `key`, `undefined` when there is none. */
  function Lookup(c: Catalog, key: string): (r: Option<Metadata>)
    ensures r.None? <==> forall j | 0 <= j < |c| :: c[j].0 != key
    ensures r.Some? ==> exists i | 0 <= i < |c| :: c[i] == (key, r.value)
  {
    match KeyIndex(c, key)
    case None => None
    case Some(i) =>
      assert c[i] == (key, c[i].1);
      Some(c[i].1)
  }

  lemma LookupDistinct(c: Catalog, i: nat)
    requires DistinctKeys(c) && i < |c|
    ensures Lookup(c, c[i].0) == Some(c[i].1)
  {
  }

  /**
   * `getLastVersion`: the entry of the last key. With no keys the source
   * reads `versions[undefined]`, the property named "undefined".
   */
  function GetLastVersion(versions: Catalog): (r: Option<Metadata>)
    ensures |versions| == 0 ==> r.None?
    ensures |versions| > 0 && DistinctKeys(versions) ==> r == Some(versions[|versions| - 1].1)
  {
    if |versions| == 0 then Lookup(versions, "undefined")
    else
      var r := Lookup(versions, versions[|versions| - 1].0);
      if DistinctKeys(versions) then LookupDistinct(versions, |versions| - 1); r else r
  }

  // ---------------------------------------------------------------------------
  // parseVersionNumber

  /** A JavaScript number as `Number()` gives it for a version component. */
  datatype Num = Int(n: nat) | NaN

  /** `===` on numbers: NaN equals nothing. */
  predicate NumEq(a: Num, b: Num) { a.Int? && b.Int? && a.n == b.n }

  /** `<` on numbers: false whenever NaN is involved. */
  predicate NumLt(a: Num, b: Num) { a.Int? && b.Int? && a.n < b.n }

  /**
   * `Number(s)` for a component: "" is 0, a digit string its value, anything
   * else NaN. A numeral without leading zeros is printed back as itself.
   */
  function JsNumber(s: string): Num {
    if AllDigits(s) then Int(NumeralValue(s)) else NaN
  }

  /** `Number()` then the template literal gives a numeral without leading zeros back unchanged. */
  lemma NumberPrintsBack(s: string)
    requires s != [] && AllDigits(s) && (s[0] == '0' ==> s == "0")
    ensures NumText(JsNumber(s)) == s
  {
    NumeralRoundTrip(s);
  }

  /** A number as a template literal prints it. */
  function NumText(a: Num): string {
    match a
    case Int(n) => NatToString(n)
    case NaN => "NaN"
  }

  /** `[major, minor, patch, appendix]`; an appendix of `undefined` is `None`. */
  datatype VersionParts = VersionParts(major: Num, minor: Num, patch: nat, appendix: Option<string>)

  /** The key `${major}.${minor}.${patch}${appendix}` the selectors look up. */
  function Render(v: VersionParts): string {
    NumText(v.major) + "." + NumText(v.minor) + "." + NatToString(v.patch) +
    (match v.appendix case Some(a) => a case None => "undefined")
  }

  /** Leftmost start at or after `from` of `\d+\.\d+\.\d+`. */
  function FindStrictTriple(s: string, from: nat): (r: Option<nat>)
    requires from <= |s|
    ensures r.Some? ==> from <= r.value < |s| && StrictTripleEnd(s, r.value).Some?
    ensures r.Some? ==> forall q | from <= q < r.value :: StrictTripleEnd(s, q).None?
    ensures r.None? ==> forall q | from <= q < |s| :: StrictTripleEnd(s, q).None?
  {
    var at := (q: nat) => q <= |s| && StrictTripleEnd(s, q).Some?;
    assert forall q: nat | q <= |s| :: at(q) == StrictTripleEnd(s, q).Some?;
    FindFirst(|s|, from, at)
  }

  /**
   * `v.split(/\d+\.\d+\.\d+/)[1]`: the text between the first and the second
   * match (or the end), `undefined` when there is no match at all.
   */
  function Appendix(v: string): Option<string> {
    match FindStrictTriple(v, 0)
    case None => None
    case Some(q1) =>
      var e1 := StrictTripleEnd(v, q1).value;
      match FindStrictTriple(v, e1)
      case None => Some(v[e1..])
      case Some(q2) => Some(v[e1..q2])
  }

  /**
   * `parseVersionNumber`: numbers from the first two "."-separated components,
   * the leading digits of the third, and the appendix. Fewer than three
   * components, or a third one that does not start with a digit, throw.
   */
  function ParseVersionNumber(v: string): (r: Result<VersionParts, Error>)
    ensures r.Success? <==> |Split(v, '.')| >= 3 && Split(v, '.')[2] != [] && IsDigit(Split(v, '.')[2][0])
    ensures r.Success? ==> r.value.major == JsNumber(Split(v, '.')[0]) && r.value.minor == JsNumber(Split(v, '.')[1])
  {
    var parts := Split(v, '.');
    if |parts| < 3 then Failure(MalformedVersion(v))
    else
      var e := RunEnd(parts[2], 0);
      if e == 0 then Failure(MalformedVersion(v))
      else
        assert AllDigits(parts[2][..e]);
        Success(VersionParts(JsNumber(parts[0]), JsNumber(parts[1]), NumeralValue(parts[2][..e]), Appendix(v)))
  }

  /**
   * When the third "."-separated component is a run of digits `d` followed by
   * text that does not start with a digit, the version parses and its patch is
   * the value of `d`; its appendix is `undefined` exactly when no
   * `\d+\.\d+\.\d+` occurs anywhere in the version.
   */
  lemma ParseVersionNumberPatch(v: string, d: string, rest: string)
    requires |Split(v, '.')| >= 3 && Split(v, '.')[2] == d + rest
    requires d != [] && AllDigits(d) && (rest == [] || !IsDigit(rest[0]))
    ensures ParseVersionNumber(v).Success? && ParseVersionNumber(v).value.patch == NumeralValue(d)
    ensures ParseVersionNumber(v).value.appendix.None? <==> forall q | 0 <= q < |v| :: !StrictGroupsAt(v, q, 2)
  {
    RunEndOfDigits(d + rest, 0, |d|);
    assert (d + rest)[..|d|] == d;
    AppendixUndefined(v);
  }

  predicate Parses(key: string) { ParseVersionNumber(key).Success? }

  function PartsOf(key: string): VersionParts
    requires Parses(key)
  {
    ParseVersionNumber(key).value
  }

  // ---------------------------------------------------------------------------
  // The running-best scans of `versionMinorAndPatch` and `versionPatch`

  /**
   * A `forEach` over the keys that parses each key and folds it into the
   * running best with `step`; the first key that fails to parse throws.
   */
  function Scan(keys: seq<string>, start: VersionParts, step: (VersionParts, VersionParts) -> VersionParts)
    : Result<VersionParts, Error>
    decreases |keys|
  {
    if keys == [] then Success(start)
    else
      match Scan(keys[..|keys| - 1], start, step)
      case Failure(e) => Failure(e)
      case Success(best) =>
        match ParseVersionNumber(keys[|keys| - 1])
        case Failure(e) => Failure(e)
        case Success(t) => Success(step(best, t))
  }

  /** One more key: the scan of a longer prefix is one step after the scan of the shorter one. */
  lemma ScanExtend(keys: seq<string>, i: nat, start: VersionParts, step: (VersionParts, VersionParts) -> VersionParts)
    requires i < |keys|
    ensures Scan(keys[..i + 1], start, step) ==
      match Scan(keys[..i], start, step)
      case Failure(e) => Failure(e)
      case Success(best) =>
        match ParseVersionNumber(keys[i])
        case Failure(e) => Failure(e)
        case Success(t) => Success(step(best, t))
  {
    assert keys[..i + 1][..i] == keys[..i];
  }

  /** Once a prefix of the keys has thrown, the whole scan has thrown the same error. */
  lemma {:induction false} ScanFailurePersists(keys: seq<string>, n: nat, start: VersionParts,
                                               step: (VersionParts, VersionParts) -> VersionParts)
    requires n <= |keys| && Scan(keys[..n], start, step).Failure?
    ensures Scan(keys, start, step) == Scan(keys[..n], start, step)
    decreases |keys| - n
  {
    if n < |keys| {
      var longer := keys[..n + 1];
      assert longer[..n] == keys[..n];
      ScanFailurePersists(keys, n + 1, start, step);
    } else {
      assert keys[..n] == keys;
    }
  }

  /** A scan that did not throw parsed every key. */
  lemma {:induction false} ScanParsesAll(keys: seq<string>, start: VersionParts,
                                         step: (VersionParts, VersionParts) -> VersionParts)
    requires Scan(keys, start, step).Success?
    ensures forall i | 0 <= i < |keys| :: Parses(keys[i])
    decreases |keys|
  {
    if keys != [] {
      var init := keys[..|keys| - 1];
      ScanParsesAll(init, start, step);
      assert forall i | 0 <= i < |init| :: init[i] == keys[i];
    }
  }

  /**
   * The caret update: a key with the same major replaces minor, patch and
   * appendix when its minor is larger OR its patch is larger.
   */
  function CaretStep(best: VersionParts, t: VersionParts): (r: VersionParts)
    ensures r != best <==> NumEq(best.major, t.major) && (NumLt(best.minor, t.minor) || best.patch < t.patch)
    ensures r != best ==> r == VersionParts(best.major, t.minor, t.patch, t.appendix)
  {
    if NumEq(best.major, t.major) && (NumLt(best.minor, t.minor) || best.patch < t.patch) then
      VersionParts(best.major, t.minor, t.patch, t.appendix)
    else best
  }

  /** The tilde update: a key with the same major and minor and a larger patch replaces patch and appendix. */
  function TildeStep(best: VersionParts, t: VersionParts): (r: VersionParts)
    ensures r != best <==> NumEq(best.major, t.major) && NumEq(best.minor, t.minor) && best.patch < t.patch
    ensures r != best ==> r == VersionParts(best.major, best.minor, t.patch, t.appendix)
  {
    if NumEq(best.major, t.major) && NumEq(best.minor, t.minor) && best.patch < t.patch then
      VersionParts(best.major, best.minor, t.patch, t.appendix)
    else best
  }

  /** What `versionMinorAndPatch` returns. */
  function CaretSelect(versions: Catalog, versionNumber: string): Result<Option<Metadata>, Error> {
    var c :- ParseVersionNumber(versionNumber);
    var best :- Scan(Keys(versions), c, CaretStep);
    Success(Lookup(versions, Render(best)))
  }

  /** What `versionPatch` returns. */
  function TildeSelect(versions: Catalog, versionNumber: string): Result<Option<Metadata>, Error> {
    var c :- ParseVersionNumber(versionNumber);
    var best :- Scan(Keys(versions), c, TildeStep);
    Success(Lookup(versions, Render(best)))
  }

  /** `versionMinorAndPatch` (the `^` selector), with its `forEach` as a loop. */
  method VersionMinorAndPatch(versions: Catalog, versionNumber: string) returns (r: Result<Option<Metadata>, Error>)
    ensures r == CaretSelect(versions, versionNumber)
  {
    var parsed := ParseVersionNumber(versionNumber);
    if parsed.Failure? {
      return Failure(parsed.error);
    }
    var start := parsed.value;
    var major, minor, appendix := start.major, start.minor, start.appendix;
    var patch: nat := start.patch;
    var versionKeys := Keys(versions);
    var i := 0;
    while i < |versionKeys|
      invariant 0 <= i <= |versionKeys|
      invariant Scan(versionKeys[..i], start, CaretStep) == Success(VersionParts(major, minor, patch, appendix))
    {
      var temp := ParseVersionNumber(versionKeys[i]);
      ScanExtend(versionKeys, i, start, CaretStep);
      if temp.Failure? {
        ScanFailurePersists(versionKeys, i + 1, start, CaretStep);
        return Failure(temp.error);
      }
      var t := temp.value;
      if NumEq(major, t.major) {
        if NumLt(minor, t.minor) || patch < t.patch {
          minor, patch, appendix := t.minor, t.patch, t.appendix;
        }
      }
      i := i + 1;
    }
    assert versionKeys[..i] == versionKeys;
    r := Success(Lookup(versions, Render(VersionParts(major, minor, patch, appendix))));
  }

  /** `versionPatch` (the `~` selector), with its `forEach` as a loop. */
  method VersionPatch(versions: Catalog, versionNumber: string) returns (r: Result<Option<Metadata>, Error>)
    ensures r == TildeSelect(versions, versionNumber)
  {
    var parsed := ParseVersionNumber(versionNumber);
    if parsed.Failure? {
      return Failure(parsed.error);
    }
    var start := parsed.value;
    var major, minor, appendix := start.major, start.minor, start.appendix;
    var patch: nat := start.patch;
    var versionKeys := Keys(versions);
    var i := 0;
    while i < |versionKeys|
      invariant 0 <= i <= |versionKeys|
      invariant Scan(versionKeys[..i], start, TildeStep) == Success(VersionParts(major, minor, patch, appendix))
    {
      var temp := ParseVersionNumber(versionKeys[i]);
      ScanExtend(versionKeys, i, start, TildeStep);
      if temp.Failure? {
        ScanFailurePersists(versionKeys, i + 1, start, TildeStep);
        return Failure(temp.error);
      }
      var t := temp.value;
      if NumEq(major, t.major) && NumEq(minor, t.minor) && patch < t.patch {
        patch := t.patch;
        appendix := t.appendix;
      }
      i := i + 1;
    }
    assert versionKeys[..i] == versionKeys;
    r := Success(Lookup(versions, Render(VersionParts(major, minor, patch, appendix))));
  }

  // ---------------------------------------------------------------------------
  // `versionLargerThan` and `versionLessThan`

  /**
   * What `versionLargerThan` and `versionLessThan` return as written: the first
   * statement of the loop body reads `key`, whose `const` declaration after the
   * loop has not run yet, so any non-empty catalog throws a ReferenceError.
   * With no keys the loop never runs and the constraint's own key is looked up.
   */
  function AngleAsWritten(versions: Catalog, versionNumber: string): Result<Option<Metadata>, Error> {
    var c :- ParseVersionNumber(versionNumber);
    if |versions| > 0 then Failure(KeyReadBeforeDeclaration)
    else Success(Lookup(versions, Render(c)))
  }

  /** `versionLargerThan` as written; the comparisons after the failing read are never reached. */
  method VersionLargerThan(versions: Catalog, versionNumber: string) returns (r: Result<Option<Metadata>, Error>)
    ensures r == AngleAsWritten(versions, versionNumber)
  {
    var parsed := ParseVersionNumber(versionNumber);
    if parsed.Failure? {
      return Failure(parsed.error);
    }
    var versionKeys := Keys(versions);
    // The loop's first iteration throws, so it runs at most once.
    if 0 < |versionKeys| {
      return Failure(KeyReadBeforeDeclaration);
    }
    r := Success(Lookup(versions, Render(parsed.value)));
  }

  /** `versionLessThan` as written; the comparisons after the failing read are never reached. */
  method VersionLessThan(versions: Catalog, versionNumber: string) returns (r: Result<Option<Metadata>, Error>)
    ensures r == AngleAsWritten(versions, versionNumber)
  {
    var parsed := ParseVersionNumber(versionNumber);
    if parsed.Failure? {
      return Failure(parsed.error);
    }
    var versionKeys := Keys(versions);
    // The loop's first iteration throws, so it runs at most once.
    if 0 < |versionKeys| {
      return Failure(KeyReadBeforeDeclaration);
    }
    r := Success(Lookup(versions, Render(parsed.value)));
  }

  /** With no keys, the as-written `>`/`<` selectors find nothing. */
  lemma AngleOnEmptyCatalog(versionNumber: string)
    requires Parses(versionNumber)
    ensures AngleAsWritten([], versionNumber) == Success(None)
  {
  }

  /**
   * The comparison chain of `versionLargerThan` (`upward`) or `versionLessThan`:
   * `t` is strictly beyond `c` on (major, minor, patch).
   */
  predicate Beyond(t: VersionParts, c: VersionParts, upward: bool) {
    if upward then
      NumLt(c.major, t.major) ||
      (NumEq(t.major, c.major) && NumLt(c.minor, t.minor)) ||
      (NumEq(t.major, c.major) && NumEq(t.minor, c.minor) && c.patch < t.patch)
    else
      NumLt(t.major, c.major) ||
      (NumEq(t.major, c.major) && NumLt(t.minor, c.minor)) ||
      (NumEq(t.major, c.major) && NumEq(t.minor, c.minor) && t.patch < c.patch)
  }

  /**
   * The running best the intended `>`/`<` loop ends with: the first key (in
   * catalog order) beyond `c`, or `c` itself when none is.
   */
  function FirstBeyond(keys: seq<string>, c: VersionParts, upward: bool): Result<VersionParts, Error>
    decreases |keys|
  {
    if keys == [] then Success(c)
    else
      match ParseVersionNumber(keys[0])
      case Failure(e) => Failure(e)
      case Success(t) => if Beyond(t, c, upward) then Success(t) else FirstBeyond(keys[1..], c, upward)
  }

  /** What the `>` and `<` selectors were meant to return, with `key` bound to `versionKeys[i]`. */
  function AngleIntended(versions: Catalog, versionNumber: string, upward: bool): Result<Option<Metadata>, Error> {
    var c :- ParseVersionNumber(versionNumber);
    var best :- FirstBeyond(Keys(versions), c, upward);
    Success(Lookup(versions, Render(best)))
  }

  /** The first `n` keys all parse and none of them is beyond `c`. */
  predicate NoneBeyondBefore(keys: seq<string>, c: VersionParts, upward: bool, n: nat)
    requires n <= |keys|
  {
    forall j | 0 <= j < n :: Parses(keys[j]) && !Beyond(PartsOf(keys[j]), c, upward)
  }

  /**
   * The intended result is either the constraint itself, with every key parsed
   * and none beyond it, or the first key beyond it, with every earlier key
   * parsed and not beyond it.
   */
  lemma {:induction false} FirstBeyondIsFirst(keys: seq<string>, c: VersionParts, upward: bool)
    requires FirstBeyond(keys, c, upward).Success?
    ensures var b := FirstBeyond(keys, c, upward).value;
      (b == c && NoneBeyondBefore(keys, c, upward, |keys|)) ||
      (exists i | 0 <= i < |keys| ::
         Parses(keys[i]) && PartsOf(keys[i]) == b && Beyond(b, c, upward) && NoneBeyondBefore(keys, c, upward, i))
    decreases |keys|
  {
    if keys != [] && !Beyond(PartsOf(keys[0]), c, upward) {
      var rest := keys[1..];
      FirstBeyondIsFirst(rest, c, upward);
      var b := FirstBeyond(keys, c, upward).value;
      if b == c && NoneBeyondBefore(rest, c, upward, |rest|) {
        NoneBeyondShift(keys, c, upward, |rest|);
      } else {
        var i :| 0 <= i < |rest| && Parses(rest[i]) && PartsOf(rest[i]) == b && Beyond(b, c, upward) &&
                 NoneBeyondBefore(rest, c, upward, i);
        NoneBeyondShift(keys, c, upward, i);
        assert keys[i + 1] == rest[i];
      }
    }
  }

  /** A first key that parses and is not beyond `c`, ahead of `n` such keys, makes `n + 1` of them. */
  lemma NoneBeyondShift(keys: seq<string>, c: VersionParts, upward: bool, n: nat)
    requires n < |keys| && Parses(keys[0]) && !Beyond(PartsOf(keys[0]), c, upward)
    requires NoneBeyondBefore(keys[1..], c, upward, n)
    ensures NoneBeyondBefore(keys, c, upward, n + 1)
  {
    forall j | 0 <= j < n + 1
      ensures Parses(keys[j]) && !Beyond(PartsOf(keys[j]), c, upward)
    {
      if j > 0 { assert keys[j] == keys[1..][j - 1]; }
    }
  }

  /** `versionLargerThan` as its comments describe it: stop at the first key greater than the constraint. */
  method VersionLargerThanIntended(versions: Catalog, versionNumber: string) returns (r: Result<Option<Metadata>, Error>)
    ensures r == AngleIntended(versions, versionNumber, true)
  {
    var parsed := ParseVersionNumber(versionNumber);
    if parsed.Failure? {
      return Failure(parsed.error);
    }
    var c := parsed.value;
    var major, minor, appendix := c.major, c.minor, c.appendix;
    var patch: nat := c.patch;
    var versionKeys := Keys(versions);
    var i := 0;
    while i < |versionKeys|
      invariant 0 <= i <= |versionKeys|
      invariant FirstBeyond(versionKeys[i..], c, true) == FirstBeyond(versionKeys, c, true)
      invariant VersionParts(major, minor, patch, appendix) == c
    {
      assert versionKeys[i..][1..] == versionKeys[i + 1..];
      var temp := ParseVersionNumber(versionKeys[i]);
      if temp.Failure? {
        return Failure(temp.error);
      }
      var t := temp.value;
      if NumLt(major, t.major) {
        major, minor, patch, appendix := t.major, t.minor, t.patch, t.appendix;
        break;
      } else if NumEq(t.major, major) && NumLt(minor, t.minor) {
        minor, patch, appendix := t.minor, t.patch, t.appendix;
        break;
      } else if NumEq(t.major, major) && NumEq(t.minor, minor) && patch < t.patch {
        patch, appendix := t.patch, t.appendix;
        break;
      }
      i := i + 1;
    }
    r := Success(Lookup(versions, Render(VersionParts(major, minor, patch, appendix))));
  }

  /** `versionLessThan` as its comments describe it: stop at the first key less than the constraint. */
  method VersionLessThanIntended(versions: Catalog, versionNumber: string) returns (r: Result<Option<Metadata>, Error>)
    ensures r == AngleIntended(versions, versionNumber, false)
  {
    var parsed := ParseVersionNumber(versionNumber);
    if parsed.Failure? {
      return Failure(parsed.error);
    }
    var c := parsed.value;
    var major, minor, appendix := c.major, c.minor, c.appendix;
    var patch: nat := c.patch;
    var versionKeys := Keys(versions);
    var i := 0;
    while i < |versionKeys|
      invariant 0 <= i <= |versionKeys|
      invariant FirstBeyond(versionKeys[i..], c, false) == FirstBeyond(versionKeys, c, false)
      invariant VersionParts(major, minor, patch, appendix) == c
    {
      assert versionKeys[i..][1..] == versionKeys[i + 1..];
      var temp := ParseVersionNumber(versionKeys[i]);
      if temp.Failure? {
        return Failure(temp.error);
      }
      var t := temp.value;
      if NumLt(t.major, major) {
        major, minor, patch, appendix := t.major, t.minor, t.patch, t.appendix;
        break;
      } else if NumEq(t.major, major) && NumLt(t.minor, minor) {
        minor, patch, appendix := t.minor, t.patch, t.appendix;
        break;
      } else if NumEq(t.major, major) && NumEq(t.minor, minor) && t.patch < patch {
        patch, appendix := t.patch, t.appendix;
        break;
      }
      i := i + 1;
    }
    r := Success(Lookup(versions, Render(VersionParts(major, minor, patch, appendix))));
  }

  // ---------------------------------------------------------------------------
  // `chooseVersion`

  /** What `chooseVersion` returns: `undefined` is `Success(None)`, a throw is a `Failure`. */
  function Selection(versions: Catalog, versionNumber: string, qualifier: Qualifier): (r: Result<Option<Metadata>, Error>)
    ensures r.Success? && r.value.Some? ==> exists i | 0 <= i < |versions| :: versions[i].1 == r.value.value
  {
    if IsLatest(versionNumber) then Success(GetLastVersion(versions))
    else if qualifier == Op("^") then CaretSelect(versions, versionNumber)
    else if qualifier == Op("~") then TildeSelect(versions, versionNumber)
    else if qualifier == Op(">") || qualifier == Op("<") then AngleAsWritten(versions, versionNumber)
    else Success(None)
  }

  /** `chooseVersion`: "latest" and "*" take the last key, otherwise the qualifier picks the selector. */
  method ChooseVersion(versions: Catalog, versionNumber: string, qualifier: Qualifier) returns (r: Result<Option<Metadata>, Error>)
    ensures r == Selection(versions, versionNumber, qualifier)
  {
    if IsLatest(versionNumber) {
      return Success(GetLastVersion(versions));
    }
    if qualifier == Op("^") {
      r := VersionMinorAndPatch(versions, versionNumber);
    } else if qualifier == Op("~") {
      r := VersionPatch(versions, versionNumber);
    } else if qualifier == Op(">") {
      r := VersionLargerThan(versions, versionNumber);
    } else if qualifier == Op("<") {
      r := VersionLessThan(versions, versionNumber);
    } else {
      r := Success(None);
    }
  }

  /**
   * "latest" and "*" select the last catalog entry (nothing from an empty
   * catalog); any qualifier other than `^`, `~`, `>`, `<` selects nothing.
   */
  lemma SelectionCases(versions: Catalog, versionNumber: string, qualifier: Qualifier)
    requires DistinctKeys(versions)
    ensures IsLatest(versionNumber) && |versions| > 0 ==>
              Selection(versions, versionNumber, qualifier) == Success(Some(versions[|versions| - 1].1))
    ensures IsLatest(versionNumber) && |versions| == 0 ==> Selection(versions, versionNumber, qualifier) == Success(None)
    ensures !IsLatest(versionNumber) && qualifier !in {Op("^"), Op("~"), Op(">"), Op("<")} ==>
              Selection(versions, versionNumber, qualifier) == Success(None)
  {
  }

  // ---------------------------------------------------------------------------
  // Properties of the caret and tilde scans

  /**
   * The caret result keeps the constraint's major, and it is either the
   * constraint itself or the minor, patch and appendix of one same-major key.
   */
  lemma {:induction false} CaretOrigin(keys: seq<string>, c: VersionParts)
    requires Scan(keys, c, CaretStep).Success?
    ensures Scan(keys, c, CaretStep).value.major == c.major
    ensures var b := Scan(keys, c, CaretStep).value;
      b == c ||
      exists i | 0 <= i < |keys| :: Parses(keys[i]) && NumEq(c.major, PartsOf(keys[i]).major) &&
        b == VersionParts(c.major, PartsOf(keys[i]).minor, PartsOf(keys[i]).patch, PartsOf(keys[i]).appendix)
    decreases |keys|
  {
    if keys != [] {
      var n := |keys| - 1;
      var init := keys[..n];
      CaretOrigin(init, c);
      var b0 := Scan(init, c, CaretStep).value;
      var b := Scan(keys, c, CaretStep).value;
      assert b == CaretStep(b0, PartsOf(keys[n]));
      if b == b0 && b0 != c {
        var i :| 0 <= i < |init| && Parses(init[i]) && NumEq(c.major, PartsOf(init[i]).major) &&
          b0 == VersionParts(c.major, PartsOf(init[i]).minor, PartsOf(init[i]).patch, PartsOf(init[i]).appendix);
        assert keys[i] == init[i];
      }
    }
  }

  /**
   * Key `k` set the caret result `b` (or, at -1, no key moved the constraint
   * `c`), and every later key parses and leaves `b` where it is.
   */
  predicate CaretSettledAt(keys: seq<string>, c: VersionParts, b: VersionParts, k: int) {
    -1 <= k < |keys| &&
    (if k == -1 then b == c
     else (Parses(keys[k]) && NumEq(c.major, PartsOf(keys[k]).major) &&
           b == VersionParts(c.major, PartsOf(keys[k]).minor, PartsOf(keys[k]).patch, PartsOf(keys[k]).appendix))) &&
    forall j | k < j < |keys| :: Parses(keys[j]) && CaretStep(b, PartsOf(keys[j])) == b
  }

  /**
   * The caret result is the constraint or the last key that moved the running
   * best, and it is settled: by `CaretStep`'s contract, no later key has its
   * major together with a larger minor or a larger patch.
   */
  lemma {:induction false} CaretSettled(keys: seq<string>, c: VersionParts)
    requires Scan(keys, c, CaretStep).Success?
    ensures exists k: int :: CaretSettledAt(keys, c, Scan(keys, c, CaretStep).value, k)
    decreases |keys|
  {
    if keys == [] {
      assert CaretSettledAt(keys, c, c, -1);
    } else {
      var n := |keys| - 1;
      var init := keys[..n];
      CaretSettled(init, c);
      var b0 := Scan(init, c, CaretStep).value;
      assert Parses(keys[n]);
      var k: int :| CaretSettledAt(init, c, b0, k);
      assert Scan(keys, c, CaretStep).value == CaretStep(b0, PartsOf(keys[n]));
      CaretSettledStep(keys, c, b0, k, Scan(keys, c, CaretStep).value);
    }
  }

  /** One more key keeps the caret result settled: the key moved it, or it left it where it was. */
  lemma CaretSettledStep(keys: seq<string>, c: VersionParts, b0: VersionParts, k: int, b: VersionParts)
    requires keys != [] && Parses(keys[|keys| - 1])
    requires CaretSettledAt(keys[..|keys| - 1], c, b0, k)
    requires b == CaretStep(b0, PartsOf(keys[|keys| - 1]))
    ensures exists k': int :: CaretSettledAt(keys, c, b, k')
  {
    var n := |keys| - 1;
    assert b0.major == c.major;
    if b != b0 {
      assert CaretSettledAt(keys, c, b, n);
    } else {
      assert forall j | 0 <= j < n :: keys[j] == keys[..n][j];
      assert CaretSettledAt(keys, c, b, k);
    }
  }

  /** `t` has the constraint's major and minor. */
  predicate SameLine(t: VersionParts, c: VersionParts) {
    NumEq(c.major, t.major) && NumEq(c.minor, t.minor)
  }

  /** The tilde result keeps major and minor and never lowers the patch; an unraised patch keeps the constraint. */
  lemma {:induction false} TildeKeepsLine(keys: seq<string>, c: VersionParts)
    requires Scan(keys, c, TildeStep).Success?
    ensures var b := Scan(keys, c, TildeStep).value;
      b.major == c.major && b.minor == c.minor && c.patch <= b.patch && (b.patch == c.patch ==> b == c)
    decreases |keys|
  {
    if keys != [] {
      TildeKeepsLine(keys[..|keys| - 1], c);
    }
  }

  /** The tilde patch is at least the patch of every key on the constraint's line. */
  lemma {:induction false} TildeBound(keys: seq<string>, c: VersionParts)
    requires Scan(keys, c, TildeStep).Success?
    ensures var b := Scan(keys, c, TildeStep).value;
      forall i | 0 <= i < |keys| :: Parses(keys[i]) && (SameLine(PartsOf(keys[i]), c) ==> PartsOf(keys[i]).patch <= b.patch)
    decreases |keys|
  {
    ScanParsesAll(keys, c, TildeStep);
    if keys != [] {
      var n := |keys| - 1;
      var init := keys[..n];
      TildeBound(init, c);
      TildeKeepsLine(init, c);
      assert forall i | 0 <= i < n :: keys[i] == init[i];
    }
  }

  /**
   * Key `i` is on the constraint's line and carries patch and appendix of `b`,
   * and no key before it on that line reaches `b`'s patch.
   */
  predicate FirstToReach(keys: seq<string>, c: VersionParts, b: VersionParts, i: nat) {
    i < |keys| && Parses(keys[i]) && SameLine(PartsOf(keys[i]), c) &&
    PartsOf(keys[i]).patch == b.patch && PartsOf(keys[i]).appendix == b.appendix &&
    forall j | 0 <= j < i :: Parses(keys[j]) && (SameLine(PartsOf(keys[j]), c) ==> PartsOf(keys[j]).patch < b.patch)
  }

  /** A raised tilde patch, and the appendix with it, come from the first key on the constraint's line that reaches it. */
  lemma {:induction false} TildeFirstReach(keys: seq<string>, c: VersionParts)
    requires Scan(keys, c, TildeStep).Success?
    ensures var b := Scan(keys, c, TildeStep).value;
      b.patch > c.patch ==> exists i: nat :: FirstToReach(keys, c, b, i)
    decreases |keys|
  {
    if keys != [] {
      var n := |keys| - 1;
      var init := keys[..n];
      TildeFirstReach(init, c);
      var b0 := Scan(init, c, TildeStep).value;
      var b := Scan(keys, c, TildeStep).value;
      assert b == TildeStep(b0, PartsOf(keys[n]));
      if b != b0 {
        TildeBound(init, c);
        TildeKeepsLine(init, c);
        ScanParsesAll(keys, c, TildeStep);
        assert forall i | 0 <= i < n :: keys[i] == init[i];
        assert FirstToReach(keys, c, b, n);
      } else if b.patch > c.patch {
        var i: nat :| FirstToReach(init, c, b, i);
        assert forall j | 0 <= j <= i :: keys[j] == init[j];
        assert FirstToReach(keys, c, b, i);
      }
    }
  }

  // ---------------------------------------------------------------------------
  // Plain keys

  lemma {:induction false} RunEndOfDigits(s: string, i: nat, j: nat)
    requires i <= j <= |s| && (forall k | i <= k < j :: IsDigit(s[k])) && (j == |s| || !IsDigit(s[j]))
    ensures RunEnd(s, i) == j
    decreases j - i
  {
    if i < j {
      RunEndOfDigits(s, i + 1, j);
    }
  }

  /**
   * A key "major.minor.patch" followed by an appendix without digits or dots
   * ("", "-beta", "+build") parses to its three numbers and that appendix, and
   * the selectors rebuild exactly that key from them.
   */
  lemma KeyRoundTrip(major: nat, minor: nat, patch: nat, rest: string)
    requires forall i | 0 <= i < |rest| :: !IsDigit(rest[i]) && rest[i] != '.'
    ensures var key := NatToString(major) + "." + NatToString(minor) + "." + NatToString(patch) + rest;
      ParseVersionNumber(key) == Success(VersionParts(Int(major), Int(minor), patch, Some(rest))) &&
      Render(VersionParts(Int(major), Int(minor), patch, Some(rest))) == key
  {
    var a, b, d := NatToString(major), NatToString(minor), NatToString(patch);
    var key := a + "." + b + "." + d + rest;
    KeySplits(a, b, d, rest);
    RunEndOfDigits(d + rest, 0, |d|);
    assert (d + rest)[..|d|] == d;
    KeyAppendix(a, b, d, rest);
  }

  /** Components free of dots, joined by dots, split back into those components. */
  lemma KeySplits(a: string, b: string, d: string, rest: string)
    requires AllDigits(a) && AllDigits(b) && AllDigits(d)
    requires forall i | 0 <= i < |rest| :: rest[i] != '.'
    ensures Split(a + "." + b + "." + d + rest, '.') == [a, b, d + rest]
  {
    var third := d + rest;
    assert a + "." + b + "." + d + rest == a + "." + b + "." + third;
    assert '.' !in third by {
      forall i | 0 <= i < |third| ensures third[i] != '.' {
        if i >= |d| { assert third[i] == rest[i - |d|]; }
      }
    }
    JoinThree([a, b, third], '.');
    SplitJoin([a, b, third], '.');
  }

  /** After a leading `\d+\.\d+\.\d+` followed by text with no digits, the appendix is that text. */
  lemma KeyAppendix(a: string, b: string, d: string, rest: string)
    requires a != [] && b != [] && d != [] && AllDigits(a) && AllDigits(b) && AllDigits(d)
    requires forall i | 0 <= i < |rest| :: !IsDigit(rest[i])
    ensures Appendix(a + "." + b + "." + d + rest) == Some(rest)
  {
    var key := a + "." + b + "." + d + rest;
    var e := |a| + |b| + |d| + 2;
    DigitTripleMatches(a, b, d, rest);
    forall q | e <= q < |key| ensures StrictTripleEnd(key, q).None? {
      assert key[q] == rest[q - e];
    }
    AppendixOfOnlyMatch(key, 0, e);
    assert key[e..] == rest;
  }

  /** A key of three single digits parses to those digits with an empty appendix, and prints back as itself. */
  lemma DigitKey(major: nat, minor: nat, patch: nat, key: string)
    requires major < 10 && minor < 10 && patch < 10
    requires key == [DigitChar(major), '.', DigitChar(minor), '.', DigitChar(patch)]
    ensures ParseVersionNumber(key) == Success(VersionParts(Int(major), Int(minor), patch, Some("")))
    ensures Render(VersionParts(Int(major), Int(minor), patch, Some(""))) == key
  {
    KeyRoundTrip(major, minor, patch, "");
    assert NatToString(major) + "." + NatToString(minor) + "." + NatToString(patch) + "" == key;
  }

  /** Three runs of digits joined by dots, then text that does not start with a digit: one `\d+\.\d+\.\d+` match at the start. */
  lemma DigitTripleMatches(a: string, b: string, d: string, rest: string)
    requires a != [] && b != [] && d != [] && AllDigits(a) && AllDigits(b) && AllDigits(d)
    requires rest == [] || !IsDigit(rest[0])
    ensures StrictTripleEnd(a + "." + b + "." + d + rest, 0) == Some(|a| + |b| + |d| + 2)
  {
    var key := a + "." + b + "." + d + rest;
    RunEndOfDigits(key, 0, |a|);
    RunEndOfDigits(key, |a| + 1, |a| + 1 + |b|);
    RunEndOfDigits(key, |a| + |b| + 2, |a| + |b| + |d| + 2);
  }

  /** `split(...)[1]` is `undefined` exactly when the pattern matches nowhere. */
  lemma AppendixUndefined(v: string)
    ensures Appendix(v).None? <==> forall q | 0 <= q < |v| :: !StrictGroupsAt(v, q, 2)
  {
    forall q | 0 <= q <= |v| ensures StrictTripleEnd(v, q).Some? <==> StrictGroupsAt(v, q, 2) {
      StrictTripleEndMatches(v, q);
    }
    match FindStrictTriple(v, 0)
    case Some(q) =>
      assert Appendix(v).Some?;
      assert q < |v| && StrictTripleEnd(v, q).Some?;
      assert StrictGroupsAt(v, q, 2);
      assert exists p | 0 <= p < |v| :: StrictGroupsAt(v, p, 2);
    case None =>
      assert Appendix(v).None?;
  }

  /**
   * With exactly one `\d+\.\d+\.\d+` match before its end `e` and none after,
   * `split(...)[1]` is the text after the match.
   */
  lemma AppendixOfOnlyMatch(v: string, q: nat, e: nat)
    requires q <= |v| && StrictTripleEnd(v, q) == Some(e)
    requires forall p | 0 <= p < q :: StrictTripleEnd(v, p).None?
    requires forall p | e <= p < |v| :: StrictTripleEnd(v, p).None?
    ensures Appendix(v) == Some(v[e..])
  {
    FindStrictTripleIs(v, 0, q);
    assert FindStrictTriple(v, e) == None;
  }

  /**
   * With a first match at `q1` ending at `e1` and the next one starting at
   * `q2`, `split(...)[1]` is the text between the two.
   */
  lemma AppendixOfTwoMatches(v: string, q1: nat, e1: nat, q2: nat)
    requires q1 <= |v| && StrictTripleEnd(v, q1) == Some(e1)
    requires forall p | 0 <= p < q1 :: StrictTripleEnd(v, p).None?
    requires e1 <= q2 < |v| && StrictTripleEnd(v, q2).Some?
    requires forall p | e1 <= p < q2 :: StrictTripleEnd(v, p).None?
    ensures Appendix(v) == Some(v[e1..q2])
  {
    FindStrictTripleIs(v, 0, q1);
    FindStrictTripleIs(v, e1, q2);
  }

  /** A match at `q` with none between `from` and `q` is the one the scan finds. */
  lemma FindStrictTripleIs(v: string, from: nat, q: nat)
    requires from <= q < |v| && StrictTripleEnd(v, q).Some?
    requires forall p | from <= p < q :: StrictTripleEnd(v, p).None?
    ensures FindStrictTriple(v, from) == Some(q)
  {
  }

  /** In "1.2.3-rc.4.5.6" the appendix stops where the second triple starts: "-rc.". */
  lemma AppendixBeforeSecondTriple()
    ensures Appendix("1.2.3-rc.4.5.6") == Some("-rc.")
  {
    var v := "1.2.3-rc.4.5.6";
    RcMatches(v);
    AppendixOfTwoMatches(v, 0, 5, 9);
  }

  /** Where the strict pattern matches in "1.2.3-rc.4.5.6". */
  lemma RcMatches(v: string)
    requires v == "1.2.3-rc.4.5.6"
    ensures StrictTripleEnd(v, 0) == Some(5) && StrictTripleEnd(v, 9) == Some(14)
    ensures forall p | 5 <= p < 9 :: StrictTripleEnd(v, p).None?
    ensures v[5..9] == "-rc."
  {
    RcFirstMatch(v);
    RcSecondMatch(v);
    forall p | 5 <= p < 9 ensures StrictTripleEnd(v, p).None? {
      assert !IsDigit(v[p]);
    }
  }

  lemma RcFirstMatch(v: string)
    requires v == "1.2.3-rc.4.5.6"
    ensures StrictTripleEnd(v, 0) == Some(5)
  {
    RunEndOfDigits(v, 0, 1);
    RunEndOfDigits(v, 2, 3);
    RunEndOfDigits(v, 4, 5);
  }

  lemma RcSecondMatch(v: string)
    requires v == "1.2.3-rc.4.5.6"
    ensures StrictTripleEnd(v, 9) == Some(14)
  {
    RunEndOfDigits(v, 9, 10);
    RunEndOfDigits(v, 11, 12);
    RunEndOfDigits(v, 13, 14);
  }

  // ---------------------------------------------------------------------------
  // Worked catalogs

  lemma ScanOne(key: string, c: VersionParts, step: (VersionParts, VersionParts) -> VersionParts)
    requires Parses(key)
    ensures Scan([key], c, step) == Success(step(c, PartsOf(key)))
  {
    assert [key][..0] == [];
  }

  /** Over a single key that prints back as itself, caret selects that key whenever the key moves the constraint. */
  lemma CaretSelectsMovingKey(m: Metadata, key: string, versionNumber: string)
    requires Parses(versionNumber) && Parses(key) && Render(PartsOf(key)) == key
    requires CaretStep(PartsOf(versionNumber), PartsOf(key)) != PartsOf(versionNumber)
    ensures CaretSelect([(key, m)], versionNumber) == Success(Some(m))
  {
    ScanOne(key, PartsOf(versionNumber), CaretStep);
    assert Keys([(key, m)]) == [key];
  }

  /** Caret is not a lexicographic test: `^1.5.0` over the single key 1.4.9 selects 1.4.9. */
  lemma CaretCanSelectLowerMinor(m: Metadata, key: string, constraint: string)
    requires key == "1.4.9" && constraint == "1.5.0"
    ensures CaretSelect([(key, m)], constraint) == Success(Some(m))
  {
    var c := VersionParts(Int(1), Int(5), 0, Some(""));
    var t := VersionParts(Int(1), Int(4), 9, Some(""));
    DigitKey(1, 5, 0, constraint);
    DigitKey(1, 4, 9, key);
    CaretSelectsMovingKey(m, key, constraint);
  }

  /** Over a single key beyond the constraint that prints back as itself, the intended `>`/`<` selects that key. */
  lemma AngleIntendedSelectsBeyondKey(m: Metadata, key: string, versionNumber: string, upward: bool)
    requires Parses(versionNumber) && Parses(key) && Render(PartsOf(key)) == key
    requires Beyond(PartsOf(key), PartsOf(versionNumber), upward)
    ensures AngleIntended([(key, m)], versionNumber, upward) == Success(Some(m))
  {
    var keys := Keys([(key, m)]);
    assert keys == [key];
    assert FirstBeyond(keys, PartsOf(versionNumber), upward) == Success(PartsOf(key));
  }

  /**
   * `>1.0.0` over a catalog holding 2.0.0 throws as written, while the
   * intended selector picks 2.0.0.
   */
  lemma GreaterThanThrows(m: Metadata, key: string, constraint: string)
    requires key == "2.0.0" && constraint == "1.0.0"
    ensures AngleAsWritten([(key, m)], constraint) == Failure(KeyReadBeforeDeclaration)
    ensures AngleIntended([(key, m)], constraint, true) == Success(Some(m))
  {
    var c := VersionParts(Int(1), Int(0), 0, Some(""));
    var t := VersionParts(Int(2), Int(0), 0, Some(""));
    DigitKey(1, 0, 0, constraint);
    DigitKey(2, 0, 0, key);
    AngleIntendedSelectsBeyondKey(m, key, constraint, true);
  }
}
