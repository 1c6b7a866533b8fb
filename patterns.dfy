/**
 * Hand-written scanners for the regular expressions of src/utils/package.utils.js.
 * A search with `String.prototype.match` or `split` takes the leftmost position
 * at which the pattern matches; `FindFirst` is that search for any predicate on
 * a start position, and the searches for one fixed pattern are written out as
 * their own left-to-right scans.
 */
module Patterns {
  import opened Wrappers
  import opened Text

  /** Leftmost position in [from, n) at which `at` holds. */
  function FindFirst(n: nat, from: nat, at: nat -> bool): (r: Option<nat>)
    requires from <= n
    ensures r.Some? ==> from <= r.value < n && at(r.value)
    ensures r.Some? ==> forall p | from <= p < r.value :: !at(p)
    ensures r.None? ==> forall p | from <= p < n :: !at(p)
    decreases n - from
  {
    if from == n then None
    else if at(from) then Some(from)
    else FindFirst(n, from + 1, at)
  }

  /**
   * `\d+(.\d+){more}` matches at `i`, where `.` is the unescaped dot: any
   * character but a line terminator, a digit included. Only whether some match
   * exists matters here, so this is the pattern's automaton run on all paths.
   */
  predicate LooseGroupsAt(s: string, i: nat, more: nat)
    decreases |s| - i, more, 1
  {
    i < |s| && IsDigit(s[i]) && (more == 0 || LooseGroupsAfterDigit(s, i + 1, more))
  }

  /** Inside a digit group that has at least one digit, `more` groups still to come. */
  predicate LooseGroupsAfterDigit(s: string, j: nat, more: nat)
    requires more > 0
    decreases |s| - j, more, 0
  {
    j < |s| &&
    ((!IsLineTerminator(s[j]) && LooseGroupsAt(s, j + 1, more - 1)) ||
     (IsDigit(s[j]) && LooseGroupsAfterDigit(s, j + 1, more)))
  }

  /** Leftmost start of `\d+.\d+.\d+` in `s`, if any. */
  function FindLooseTriple(s: string): (r: Option<nat>)
    ensures r.Some? ==> r.value < |s| && LooseGroupsAt(s, r.value, 2)
    ensures r.Some? ==> forall p | 0 <= p < r.value :: !LooseGroupsAt(s, p, 2)
    ensures r.None? ==> forall p | 0 <= p < |s| :: !LooseGroupsAt(s, p, 2)
  {
    FindLooseTripleFrom(s, 0)
  }

  /** The scan behind `FindLooseTriple`: the leftmost match at or after `from`. */
  function FindLooseTripleFrom(s: string, from: nat): (r: Option<nat>)
    requires from <= |s|
    ensures r.Some? ==> from <= r.value < |s| && LooseGroupsAt(s, r.value, 2)
    ensures r.Some? ==> forall p | from <= p < r.value :: !LooseGroupsAt(s, p, 2)
    ensures r.None? ==> forall p | from <= p < |s| :: !LooseGroupsAt(s, p, 2)
    decreases |s| - from
  {
    if from == |s| then None
    else if LooseGroupsAt(s, from, 2) then Some(from)
    else FindLooseTripleFrom(s, from + 1)
  }

  /** The first line terminator at or after `p`, or the end of `s`: where a greedy `(.+)?` stops. */
  function LineEnd(s: string, p: nat): (e: nat)
    requires p <= |s|
    ensures p <= e <= |s|
    ensures forall q | p <= q < e :: !IsLineTerminator(s[q])
    ensures e < |s| ==> IsLineTerminator(s[e])
    decreases |s| - p
  {
    if p == |s| || IsLineTerminator(s[p]) then p else LineEnd(s, p + 1)
  }

  /**
   * End of a match of `(\d+\.x\.\d+|\d+\.x\.x|\d+\.\d+\.x)` starting at `p`.
   * A `\d+` followed by a literal character other than a digit can only take
   * the whole run of digits, so no backtracking is needed.
   */
  function XTripleEnd(s: string, p: nat): (r: Option<nat>)
    requires p <= |s|
    ensures r.Some? ==> p < r.value <= |s|
  {
    var a := RunEnd(s, p);
    if a == p || a + 1 >= |s| || s[a] != '.' then None
    else if a + 3 < |s| && s[a + 1] == 'x' && s[a + 2] == '.' && IsDigit(s[a + 3]) then
      Some(RunEnd(s, a + 3))
    else if a + 3 < |s| && s[a + 1] == 'x' && s[a + 2] == '.' && s[a + 3] == 'x' then
      Some(a + 4)
    else
      var b := RunEnd(s, a + 1);
      if b > a + 1 && b + 1 < |s| && s[b] == '.' && s[b + 1] == 'x' then Some(b + 2) else None
  }

  /** End of a match of `\d+\.\d+\.\d+` (escaped dots) starting at `p`. */
  function StrictTripleEnd(s: string, p: nat): (r: Option<nat>)
    requires p <= |s|
    ensures r.Some? ==> p < r.value <= |s|
  {
    var a := RunEnd(s, p);
    if a == p || a >= |s| || s[a] != '.' then None
    else
      var b := RunEnd(s, a + 1);
      if b == a + 1 || b >= |s| || s[b] != '.' then None
      else
        var c := RunEnd(s, b + 1);
        if c == b + 1 then None else Some(c)
  }

  // ---------------------------------------------------------------------------
  // The x-range and strict patterns as automata, independent of the scanners

  /**
   * `(\d+\.x\.\d+|\d+\.x\.x|\d+\.\d+\.x)` matches at `p`: a digit, then
   * the rest of the leading `\d+`. Only whether some match exists is stated.
   */
  predicate XRangeAt(s: string, p: nat) {
    p < |s| && IsDigit(s[p]) && XAfterMajorDigit(s, p + 1)
  }

  /** Inside the leading `\d+`: another digit, or the "." that ends it. */
  predicate XAfterMajorDigit(s: string, j: nat)
    decreases |s| - j
  {
    j < |s| &&
    ((IsDigit(s[j]) && XAfterMajorDigit(s, j + 1)) || (s[j] == '.' && XAfterFirstDot(s, j + 1)))
  }

  /**
   * After `\d+\.`: "x." and then a digit or "x" (the first two alternatives),
   * or a digit that opens the middle `\d+` of the third.
   */
  predicate XAfterFirstDot(s: string, j: nat) {
    (j + 2 < |s| && s[j] == 'x' && s[j + 1] == '.' && (IsDigit(s[j + 2]) || s[j + 2] == 'x')) ||
    (j < |s| && IsDigit(s[j]) && XAfterMinorDigit(s, j + 1))
  }

  /** Inside the middle `\d+` of the third alternative: another digit, or ".x". */
  predicate XAfterMinorDigit(s: string, j: nat)
    decreases |s| - j
  {
    j < |s| &&
    ((IsDigit(s[j]) && XAfterMinorDigit(s, j + 1)) || (j + 1 < |s| && s[j] == '.' && s[j + 1] == 'x'))
  }

  /** `\d+(\.\d+){more}`, with escaped dots, matches at `i`. */
  predicate StrictGroupsAt(s: string, i: nat, more: nat)
    decreases |s| - i, more, 1
  {
    i < |s| && IsDigit(s[i]) && (more == 0 || StrictGroupsAfterDigit(s, i + 1, more))
  }

  /** Inside a digit group that has at least one digit, `more` groups still to come. */
  predicate StrictGroupsAfterDigit(s: string, j: nat, more: nat)
    requires more > 0
    decreases |s| - j, more, 0
  {
    j < |s| &&
    ((s[j] == '.' && StrictGroupsAt(s, j + 1, more - 1)) ||
     (IsDigit(s[j]) && StrictGroupsAfterDigit(s, j + 1, more)))
  }

  /** The x-range scanner matches at `p` exactly when the pattern does. */
  lemma XTripleEndMatches(s: string, p: nat)
    requires p <= |s|
    ensures XTripleEnd(s, p).Some? <==> XRangeAt(s, p)
  {
    if p < |s| && IsDigit(s[p]) {
      var a := RunEnd(s, p);
      assert a == RunEnd(s, p + 1);
      XAfterMajorDigitRun(s, p + 1);
      if a + 1 < |s| && s[a] == '.' {
        XAfterFirstDotRun(s, a + 1);
      }
    }
  }

  /** After the first ".", the pattern continues exactly in the cases the scanner accepts. */
  lemma XAfterFirstDotRun(s: string, j: nat)
    requires j < |s|
    ensures XAfterFirstDot(s, j) <==>
      (j + 2 < |s| && s[j] == 'x' && s[j + 1] == '.' && (IsDigit(s[j + 2]) || s[j + 2] == 'x')) ||
      (var b := RunEnd(s, j); b > j && b + 1 < |s| && s[b] == '.' && s[b + 1] == 'x')
  {
    XAfterMinorDigitRun(s, j + 1);
    assert IsDigit(s[j]) ==> RunEnd(s, j) == RunEnd(s, j + 1);
  }

  /** The leading `\d+` of an x-range can only end where the run of digits ends. */
  lemma {:induction false} XAfterMajorDigitRun(s: string, j: nat)
    requires j <= |s|
    ensures XAfterMajorDigit(s, j) <==>
      RunEnd(s, j) < |s| && s[RunEnd(s, j)] == '.' && XAfterFirstDot(s, RunEnd(s, j) + 1)
    decreases |s| - j
  {
    if j < |s| && IsDigit(s[j]) {
      XAfterMajorDigitRun(s, j + 1);
    }
  }

  /** The middle `\d+` of the third alternative can only end where the run of digits ends. */
  lemma {:induction false} XAfterMinorDigitRun(s: string, j: nat)
    requires j <= |s|
    ensures XAfterMinorDigit(s, j) <==>
      RunEnd(s, j) + 1 < |s| && s[RunEnd(s, j)] == '.' && s[RunEnd(s, j) + 1] == 'x'
    decreases |s| - j
  {
    if j < |s| && IsDigit(s[j]) {
      XAfterMinorDigitRun(s, j + 1);
    }
  }

  /**
   * The strict scanner matches at `p` exactly when `\d+\.\d+\.\d+` does, and
   * its match takes the whole last run of digits.
   */
  lemma StrictTripleEndMatches(s: string, p: nat)
    requires p <= |s|
    ensures StrictTripleEnd(s, p).Some? <==> StrictGroupsAt(s, p, 2)
    ensures StrictTripleEnd(s, p).Some? ==>
      var e := StrictTripleEnd(s, p).value; e == |s| || !IsDigit(s[e])
  {
    if p < |s| && IsDigit(s[p]) {
      var a := RunEnd(s, p);
      assert a == RunEnd(s, p + 1);
      StrictAfterDigitRun(s, p + 1, 2);
      if a + 1 < |s| && s[a] == '.' && IsDigit(s[a + 1]) {
        var b := RunEnd(s, a + 1);
        assert b == RunEnd(s, a + 2);
        StrictAfterDigitRun(s, a + 2, 1);
      }
    }
  }

  /** A group of the strict pattern can only end where the run of digits ends. */
  lemma {:induction false} StrictAfterDigitRun(s: string, j: nat, more: nat)
    requires j <= |s| && more > 0
    ensures StrictGroupsAfterDigit(s, j, more) <==>
      RunEnd(s, j) < |s| && s[RunEnd(s, j)] == '.' && StrictGroupsAt(s, RunEnd(s, j) + 1, more - 1)
    decreases |s| - j
  {
    if j < |s| && IsDigit(s[j]) {
      StrictAfterDigitRun(s, j + 1, more);
    }
  }

  // ---------------------------------------------------------------------------
  // Lemmas about the loose pattern

  /** A run of digits, a non-terminator and the remaining groups make one more group. */
  lemma {:induction false} GroupsFromRun(s: string, i: nat, j: nat, more: nat)
    requires i < j < |s| && more > 0
    requires forall q | i <= q < j :: IsDigit(s[q])
    requires !IsLineTerminator(s[j]) && LooseGroupsAt(s, j + 1, more - 1)
    ensures LooseGroupsAt(s, i, more)
  {
    AfterDigitFromRun(s, i + 1, j, more);
  }

  lemma {:induction false} AfterDigitFromRun(s: string, m: nat, j: nat, more: nat)
    requires m <= j < |s| && more > 0
    requires forall q | m <= q < j :: IsDigit(s[q])
    requires !IsLineTerminator(s[j]) && LooseGroupsAt(s, j + 1, more - 1)
    ensures LooseGroupsAfterDigit(s, m, more)
    decreases j - m
  {
    if m < j {
      AfterDigitFromRun(s, m + 1, j, more);
    }
  }

  /**
   * A match of the loose pattern never crosses a line terminator, so it is
   * still a match in the line `s[p..LineEnd(s, p)]` that holds it.
   */
  lemma {:induction false} LooseGroupsInLine(s: string, p: nat, i: nat, more: nat)
    requires p <= |s| && p <= i <= LineEnd(s, p)
    requires LooseGroupsAt(s, i, more)
    ensures LooseGroupsAt(s[p..LineEnd(s, p)], i - p, more)
    decreases |s| - i, more, 1
  {
    var e := LineEnd(s, p);
    assert i < e;
    if more > 0 {
      LooseAfterDigitInLine(s, p, i + 1, more);
    }
  }

  lemma {:induction false} LooseAfterDigitInLine(s: string, p: nat, j: nat, more: nat)
    requires more > 0
    requires p <= |s| && p <= j <= LineEnd(s, p)
    requires LooseGroupsAfterDigit(s, j, more)
    ensures LooseGroupsAfterDigit(s[p..LineEnd(s, p)], j - p, more)
    decreases |s| - j, more, 0
  {
    var e := LineEnd(s, p);
    assert j < e;
    if !IsLineTerminator(s[j]) && LooseGroupsAt(s, j + 1, more - 1) {
      LooseGroupsInLine(s, p, j + 1, more - 1);
    } else {
      LooseAfterDigitInLine(s, p, j + 1, more);
    }
  }
}
