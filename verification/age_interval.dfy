/** Age intervals of the vaccination campaign (`AgeInterval`): a half-open
    range of ages, its label `"[lower,upper)"` (with `+` for an unbounded
    upper end) and the reading of a label back into an interval through the
    regular expression `.(?<min>[0-9]+).(?<max>[0-9]+|.).`. */
module AgeIntervals {
  import opened Util
  import opened JavaText

  /** An interval `[lower, upper)`; `Integer.MAX_VALUE` as the upper end
      stands for "no upper end". */
  datatype AgeInterval = AgeInterval(lower: int, upper: int)

  /** `isInInterval(value)`. */
  predicate IsInInterval(a: AgeInterval, value: int) {
    a.lower <= value < a.upper
  }

  /** `getInterval()`. */
  function Label(a: AgeInterval): (s: string)
    ensures |s| >= 5 && s[0] == '[' && s[|s| - 1] == ')'
  {
    "[" + IntToString(a.lower) + "," + UpperLabel(a.upper) + ")"
  }

  /** The upper end as written in a label: `+` for no upper end. */
  function UpperLabel(upper: int): string {
    if upper == INT_MAX then "+" else IntToString(upper)
  }

  // ---------------------------------------------------------------------
  // The regular expression of `getAgeInterval`, matched with `find()`

  /** What `.` matches: any character but a line terminator. */
  predicate AnyChar(c: char) {
    c != '\n' && c != '\r' && c != '\U{0085}' && c != '\U{2028}' && c != '\U{2029}'
  }

  /** The length of the run of digits starting at `i`. */
  function DigitRun(s: string, i: nat): (n: nat)
    ensures i + n <= |s| || (i > |s| && n == 0)
    decreases |s| - i
  {
    if i < |s| && IsDigit(s[i]) then 1 + DigitRun(s, i + 1) else 0
  }

  /** The group `(?<max>[0-9]+|.)` followed by `.`, at position `j`: the
      digits first, longest run first, then a single character. */
  function MaxGroupAt(s: string, j: nat): (r: Option<string>)
  {
    match DigitsThenAny(s, j, DigitRun(s, j))
    case Some(m) => Some(m)
    case None =>
      if j + 1 < |s| && AnyChar(s[j]) && AnyChar(s[j + 1]) then Some(s[j..j + 1]) else None
  }

  /** `[0-9]+` taking `m` digits or fewer, each try followed by `.`. */
  function DigitsThenAny(s: string, j: nat, m: nat): (r: Option<string>)
    requires j + m <= |s| || m == 0
    decreases m
  {
    if m == 0 then None
    else if j + m < |s| && AnyChar(s[j + m]) then Some(s[j..j + m])
    else DigitsThenAny(s, j, m - 1)
  }

  /** The whole expression at position `i`: `.`, then `(?<min>[0-9]+)`
      taking `k` digits or fewer, then `.`, then the rest. */
  function MinGroupAt(s: string, i: nat, k: nat): (r: Option<(string, string)>)
    requires i + 1 + k <= |s|
    decreases k
  {
    if k == 0 then None
    else
      var j := i + 1 + k;
      if j < |s| && AnyChar(s[j]) && MaxGroupAt(s, j + 1).Some? then
        Some((s[i + 1..j], MaxGroupAt(s, j + 1).value))
      else MinGroupAt(s, i, k - 1)
  }

  function MatchAt(s: string, i: nat): (r: Option<(string, string)>)
  {
    if i < |s| && AnyChar(s[i]) then MinGroupAt(s, i, DigitRun(s, i + 1)) else None
  }

  /** `find()` from position `i`: the leftmost match, as its two groups. */
  function Find(s: string, i: nat): (r: Option<(string, string)>)
    decreases |s| - i
  {
    if i >= |s| then None
    else match MatchAt(s, i)
      case Some(g) => Some(g)
      case None => Find(s, i + 1)
  }

  /** `getAgeInterval(label)`: `None` when it throws, that is when the
      expression is not found (`IllegalStateException`) or a group is not a
      32-bit number (`NumberFormatException`); `+` as the upper end reads as
      `Integer.MAX_VALUE`. */
  function GetAgeInterval(s: string): (r: Option<AgeInterval>)
    ensures r.Some? ==> IsInt32(r.value.lower) && IsInt32(r.value.upper)
  {
    match Find(s, 0)
    case None => None
    case Some((mn, mx)) =>
      match ParseInt(mn)
      case None => None
      case Some(lower) =>
        if mx == "+" then Some(AgeInterval(lower, INT_MAX))
        else
          match ParseInt(mx)
          case None => None
          case Some(upper) => Some(AgeInterval(lower, upper))
  }

  // ---------------------------------------------------------------------
  // Properties

  lemma {:induction false} DigitRunOf(s: string, i: nat, n: nat)
    requires i + n <= |s| && forall k :: i <= k < i + n ==> IsDigit(s[k])
    requires i + n == |s| || !IsDigit(s[i + n])
    ensures DigitRun(s, i) == n
    decreases n
  {
    if n > 0 {
      DigitRunOf(s, i + 1, n - 1);
    }
  }

  /** The upper group of a label: a run of digits ended by `)`. */
  lemma MaxGroupOfDigits(s: string, j: nat, d: string)
    requires d != [] && AllDigits(d) && j + |d| < |s| && s[j..j + |d|] == d && s[j + |d|] == ')'
    ensures MaxGroupAt(s, j) == Some(d)
  {
    DigitRunOf(s, j, |d|);
  }

  /** The upper group of a label: `+` ended by `)`. */
  lemma MaxGroupOfPlus(s: string, j: nat)
    requires j + 1 < |s| && s[j] == '+' && s[j + 1] == ')'
    ensures MaxGroupAt(s, j) == Some("+")
  {
    DigitRunOf(s, j, 0);
    assert s[j..j + 1] == "+";
  }

  /** A text `[lo,up)` with `lo` a run of digits is found at its start,
      with `lo` and `up` as its groups, when `up` is a group on its own. */
  lemma FindLabel(s: string, lo: string, up: string)
    requires lo != [] && AllDigits(lo) && |lo| + 2 < |s|
    requires s[0] == '[' && s[1..1 + |lo|] == lo && s[1 + |lo|] == ','
    requires MaxGroupAt(s, 2 + |lo|) == Some(up)
    ensures Find(s, 0) == Some((lo, up))
  {
    forall k | 1 <= k < 1 + |lo|
      ensures IsDigit(s[k])
    {
      assert s[k] == s[1..1 + |lo|][k - 1];
    }
    DigitRunOf(s, 1, |lo|);
    assert MinGroupAt(s, 0, |lo|) == Some((lo, up));
  }

  /** In the label of an interval with non-negative bounds, the
      expression is found with the two ends as its groups. */
  lemma LabelFound(a: AgeInterval)
    requires 0 <= a.lower <= INT_MAX && 0 <= a.upper <= INT_MAX
    ensures Find(Label(a), 0) == Some((IntToString(a.lower), UpperLabel(a.upper)))
  {
    var lo, up := IntToString(a.lower), UpperLabel(a.upper);
    var s := Label(a);
    var j := 2 + |lo|;
    assert s == "[" + lo + "," + up + ")";
    assert s[1..1 + |lo|] == lo && s[j..j + |up|] == up && s[j + |up|] == ')';
    if a.upper == INT_MAX {
      MaxGroupOfPlus(s, j);
    } else {
      MaxGroupOfDigits(s, j, up);
    }
    FindLabel(s, lo, up);
  }

  /** A label read back gives the interval it was made from, for
      non-negative bounds. */
  lemma LabelRoundTrip(a: AgeInterval)
    requires 0 <= a.lower <= INT_MAX && 0 <= a.upper <= INT_MAX
    ensures GetAgeInterval(Label(a)) == Some(a)
  {
    LabelFound(a);
    ParseIntToString(a.lower);
    if a.upper != INT_MAX {
      ParseIntToString(a.upper);
    }
  }

  /** A text without digits is no label: reading it throws. */
  lemma NoDigitsNoInterval(s: string)
    requires forall k :: 0 <= k < |s| ==> !IsDigit(s[k])
    ensures GetAgeInterval(s) == None
  {
    NoMatchWithoutDigits(s, 0);
  }

  lemma {:induction false} NoMatchWithoutDigits(s: string, i: nat)
    requires forall k :: 0 <= k < |s| ==> !IsDigit(s[k])
    ensures Find(s, i) == None
    decreases |s| - i
  {
    if i < |s| {
      assert DigitRun(s, i + 1) == 0;
      NoMatchWithoutDigits(s, i + 1);
    }
  }
}
