/**
 * The log metric parsers: the text-matching halves of `get_code_quality`,
 * `get_security_sast_issues` and `get_vulnerable_dependencies`. Each one
 * takes the full text of a CI job's log (the trace) and searches it with a
 * fixed regular expression; a rule that finds nothing yields 0.
 */
module LogMetrics {
  import opened Wrappers
  import opened Text
  import opened FloatLiteral

  const RATING_LABEL := "Your code has been rated at "
  const RATING_SUFFIX := "/10"

  const UNDEFINED_LABEL := "Undefined: "
  const LOW_LABEL := "Low: "
  const MEDIUM_LABEL := "Medium: "
  const HIGH_LABEL := "High: "

  const SAFETY_LABEL := "Safety found "
  const SAFETY_SUFFIX := " vulnerabilities"

  // ---------------------------------------------------------------------
  // Code quality:  Your code has been rated at ([-0-9.]*)/10

  /**
   * Regular-expression semantics: the pattern matches at i with the score
   * group s[i + |RATING_LABEL|..q].
   */
  ghost predicate RatingSpan(s: string, i: nat, q: nat) {
    LiteralAt(s, i, RATING_LABEL) && i + |RATING_LABEL| <= q <= |s| &&
    (forall t | i + |RATING_LABEL| <= t < q :: IsNumeralChar(s[t])) &&
    LiteralAt(s, q, RATING_SUFFIX)
  }

  /** Where the score group ends if a match starts at i. */
  function ScoreEnd(s: string, i: nat): (q: nat)
    requires i + |RATING_LABEL| <= |s|
  {
    RunEnd(s, i + |RATING_LABEL|, IsNumeralChar)
  }

  /**
   * The check the search performs at i: the label, then the score group,
   * which can only end where [-0-9.] ends because '/' is not in it, then "/10".
   */
  predicate RatingAt(s: string, i: nat) {
    LiteralAt(s, i, RATING_LABEL) && LiteralAt(s, ScoreEnd(s, i), RATING_SUFFIX)
  }

  /** The leftmost position where the rating search finds a match. */
  function FirstRating(s: string): (r: Option<nat>)
    ensures r.None? <==> forall i | 0 <= i <= |s| :: !RatingAt(s, i)
    ensures r.Some? ==> r.value <= |s| && RatingAt(s, r.value)
    ensures r.Some? ==> forall i | 0 <= i < r.value :: !RatingAt(s, i)
  {
    var ratingAt := (i: nat) => RatingAt(s, i);
    var r := FirstWhere(0, |s|, ratingAt);
    assert r.None? ==> forall i | 0 <= i <= |s| :: !RatingAt(s, i) by {
      forall i | 0 <= i <= |s| && r.None? ensures !RatingAt(s, i) {
        assert !ratingAt(i);
      }
    }
    assert r.Some? ==> forall i | 0 <= i < r.value :: !RatingAt(s, i) by {
      forall i | r.Some? && 0 <= i < r.value ensures !RatingAt(s, i) {
        assert !ratingAt(i);
      }
    }
    r
  }

  /** The text of the score group of a match at i. */
  function ScoreText(s: string, i: nat): (score: string)
    requires RatingAt(s, i)
    ensures AllNumeralChars(score)
  {
    s[i + |RATING_LABEL|..ScoreEnd(s, i)]
  }

  /**
   * get_code_quality: the float() of the score group of the leftmost
   * match, 0 when the trace holds no rating line, and the ValueError of
   * float() when the group is not a number.
   */
  function CodeQuality(trace: string): (r: Result<real, ParseError>)
    ensures FirstRating(trace).None? ==> r == Ok(0.0)
    ensures r.Err? ==> exists i | 0 <= i <= |trace| :: RatingAt(trace, i) && !FloatShaped(ScoreText(trace, i))
  {
    match FirstRating(trace)
    case None => Ok(0.0)
    case Some(i) => ParseFloat(ScoreText(trace, i))
  }

  /** The search's check at i agrees with the regular expression's semantics. */
  lemma RatingAtIff(s: string, i: nat)
    ensures RatingAt(s, i) <==> exists q: nat :: RatingSpan(s, i, q)
  {
    if RatingAt(s, i) {
      assert RatingSpan(s, i, ScoreEnd(s, i));
    }
    if q: nat :| RatingSpan(s, i, q) {
      assert s[q] == RATING_SUFFIX[0];
      RunEndUnique(s, i + |RATING_LABEL|, IsNumeralChar, q);
    }
  }

  /** A trace without a rating line scores 0. */
  lemma {:induction false} CodeQualityWithoutRating(trace: string)
    requires forall i: nat, q: nat :: !RatingSpan(trace, i, q)
    ensures CodeQuality(trace) == Ok(0.0)
  {
    forall i | 0 <= i <= |trace| ensures !RatingAt(trace, i) {
      RatingAtIff(trace, i);
    }
  }

  /** With a rating line, the score is float() of the leftmost line's score group. */
  lemma {:induction false} CodeQualityOfLeftmostRating(trace: string, i: nat, q: nat)
    requires RatingSpan(trace, i, q)
    requires forall i': nat, q': nat :: i' < i ==> !RatingSpan(trace, i', q')
    ensures AllNumeralChars(trace[i + |RATING_LABEL|..q])
    ensures CodeQuality(trace) == ParseFloat(trace[i + |RATING_LABEL|..q])
  {
    assert FirstRating(trace) == Some(i) by {
      forall i' | 0 <= i' < i ensures !RatingAt(trace, i') {
        RatingAtIff(trace, i');
      }
      RatingAtIff(trace, i);
    }
    CodeQualityAtFirstRating(trace, i, q);
  }

  lemma CodeQualityAtFirstRating(trace: string, i: nat, q: nat)
    requires FirstRating(trace) == Some(i) && RatingSpan(trace, i, q)
    ensures AllNumeralChars(trace[i + |RATING_LABEL|..q])
    ensures CodeQuality(trace) == ParseFloat(trace[i + |RATING_LABEL|..q])
  {
    assert trace[q] == RATING_SUFFIX[0];
    RunEndUnique(trace, i + |RATING_LABEL|, IsNumeralChar, q);
  }

  // ---------------------------------------------------------------------
  // Single-digit counts:  prefix(\d)suffix

  /** The pattern prefix(\d)suffix matches at i; its group is the digit s[i + |prefix|]. */
  predicate DigitRuleAt(s: string, i: nat, prefix: string, suffix: string) {
    i + |prefix| < |s| && LiteralAt(s, i, prefix) && IsDigit(s[i + |prefix|]) &&
    LiteralAt(s, i + |prefix| + 1, suffix)
  }

  /** The leftmost position where prefix(\d)suffix matches. */
  function FirstDigitRule(s: string, prefix: string, suffix: string): (r: Option<nat>)
    ensures r.None? <==> forall i | 0 <= i <= |s| :: !DigitRuleAt(s, i, prefix, suffix)
    ensures r.Some? ==> r.value <= |s| && DigitRuleAt(s, r.value, prefix, suffix)
    ensures r.Some? ==> forall i | 0 <= i < r.value :: !DigitRuleAt(s, i, prefix, suffix)
  {
    var ruleAt := (i: nat) => DigitRuleAt(s, i, prefix, suffix);
    var r := FirstWhere(0, |s|, ruleAt);
    assert r.None? ==> forall i | 0 <= i <= |s| :: !DigitRuleAt(s, i, prefix, suffix) by {
      forall i | 0 <= i <= |s| && r.None? ensures !DigitRuleAt(s, i, prefix, suffix) {
        assert !ruleAt(i);
      }
    }
    assert r.Some? ==> forall i | 0 <= i < r.value :: !DigitRuleAt(s, i, prefix, suffix) by {
      forall i | r.Some? && 0 <= i < r.value ensures !DigitRuleAt(s, i, prefix, suffix) {
        assert !ruleAt(i);
      }
    }
    r
  }

  /**
   * int() of the digit captured by the leftmost match of prefix(\d)suffix,
   * or 0 when the pattern does not occur.
   */
  function DigitAfter(s: string, prefix: string, suffix: string): (d: nat)
    ensures d <= 9
    ensures d != 0 ==> exists i | 0 <= i <= |s| :: DigitRuleAt(s, i, prefix, suffix) && DigitValue(s[i + |prefix|]) == d
  {
    match FirstDigitRule(s, prefix, suffix)
    case None => 0
    case Some(i) => DigitValue(s[i + |prefix|])
  }

  /** The count is the digit of the leftmost occurrence, whatever follows later. */
  lemma {:induction false} DigitAfterLeftmost(s: string, prefix: string, suffix: string, i: nat)
    requires DigitRuleAt(s, i, prefix, suffix)
    requires forall i' | 0 <= i' < i :: !DigitRuleAt(s, i', prefix, suffix)
    ensures DigitAfter(s, prefix, suffix) == DigitValue(s[i + |prefix|])
  {
  }

  /** get_security_sast_issues: the sum of the first count after each of the four severity labels. */
  function SecuritySastIssues(trace: string): (n: nat)
    ensures n <= 36
  {
    DigitAfter(trace, UNDEFINED_LABEL, "") + DigitAfter(trace, LOW_LABEL, "") +
    DigitAfter(trace, MEDIUM_LABEL, "") + DigitAfter(trace, HIGH_LABEL, "")
  }

  /** get_vulnerable_dependencies: the single digit in the first "Safety found <d> vulnerabilities". */
  function VulnerableDependencies(trace: string): (n: nat)
    ensures n <= 9
    ensures n != 0 ==> exists i | 0 <= i <= |trace| :: DigitRuleAt(trace, i, SAFETY_LABEL, SAFETY_SUFFIX)
  {
    DigitAfter(trace, SAFETY_LABEL, SAFETY_SUFFIX)
  }

  // ---------------------------------------------------------------------
  // Examples and edge cases

  /** A rating line yields its score. */
  lemma CodeQualityExample(trace: string)
    requires trace == RATING_LABEL + "8.42" + RATING_SUFFIX
    ensures CodeQuality(trace) == Ok(8.42)
  {
    RatingLine("8.42");
    RatingLiteral("8.42");
  }

  /** A negative rating is read with its sign. */
  lemma NegativeCodeQualityExample(trace: string)
    requires trace == RATING_LABEL + "-1.0" + RATING_SUFFIX
    ensures CodeQuality(trace) == Ok(-1.0)
  {
    RatingLine("-1.0");
    NegativeRatingLiteral("-1.0");
  }

  /** An empty score group makes float() fail, so the rule reports an error rather than 0. */
  lemma EmptyScoreExample(trace: string)
    requires trace == RATING_LABEL + RATING_SUFFIX
    ensures CodeQuality(trace).Err?
  {
    RatingLine("");
    assert RATING_LABEL + "" == RATING_LABEL;
    RejectedLiterals("");
  }

  /** A trace that is one rating line scores float() of the text between label and suffix. */
  lemma RatingLine(x: string)
    requires AllNumeralChars(x)
    ensures CodeQuality(RATING_LABEL + x + RATING_SUFFIX) == ParseFloat(x)
  {
    var trace := RATING_LABEL + x + RATING_SUFFIX;
    var p, q := |RATING_LABEL|, |RATING_LABEL| + |x|;
    assert LiteralAt(trace, 0, RATING_LABEL) by {
      forall t | 0 <= t < p ensures trace[t] == RATING_LABEL[t] {
        assert trace[t] == (RATING_LABEL + x)[t];
      }
    }
    assert LiteralAt(trace, q, RATING_SUFFIX) by {
      forall t | 0 <= t < |RATING_SUFFIX| ensures trace[q + t] == RATING_SUFFIX[t] {}
    }
    assert trace[p..q] == x;
    assert RatingSpan(trace, 0, q);
    CodeQualityOfLeftmostRating(trace, 0, q);
  }

  /** A label that occurs nowhere in the trace contributes 0. */
  lemma {:induction false} DigitAfterAbsentLabel(s: string, prefix: string, suffix: string)
    requires forall i: nat :: !LiteralAt(s, i, prefix)
    ensures DigitAfter(s, prefix, suffix) == 0
  {
    assert FirstDigitRule(s, prefix, suffix).None?;
  }

  /** A label whose first character the trace lacks contributes 0. */
  lemma MissingInitialContributesNothing(s: string, prefix: string)
    requires |prefix| > 0 && forall t | 0 <= t < |s| :: s[t] != prefix[0]
    ensures DigitAfter(s, prefix, "") == 0
  {
    forall i: nat ensures !LiteralAt(s, i, prefix) {
      NotLiteralAt(s, i, prefix);
    }
    DigitAfterAbsentLabel(s, prefix, "");
  }

  /** A report in which none of the four severity labels occurs has no security issues. */
  lemma NoSeverityLabelNoIssues(trace: string)
    requires forall i: nat :: !LiteralAt(trace, i, UNDEFINED_LABEL)
    requires forall i: nat :: !LiteralAt(trace, i, LOW_LABEL)
    requires forall i: nat :: !LiteralAt(trace, i, MEDIUM_LABEL)
    requires forall i: nat :: !LiteralAt(trace, i, HIGH_LABEL)
    ensures SecuritySastIssues(trace) == 0
  {
    DigitAfterAbsentLabel(trace, UNDEFINED_LABEL, "");
    DigitAfterAbsentLabel(trace, LOW_LABEL, "");
    DigitAfterAbsentLabel(trace, MEDIUM_LABEL, "");
    DigitAfterAbsentLabel(trace, HIGH_LABEL, "");
  }

  /** Two of the four severity labels present: their counts add up. */
  lemma SecurityExample(trace: string)
    requires trace == "Low: 2\nHigh: 1"
    ensures SecuritySastIssues(trace) == 3
  {
    MissingInitialContributesNothing(trace, UNDEFINED_LABEL);
    MissingInitialContributesNothing(trace, MEDIUM_LABEL);
    SecurityExampleLow(trace);
    SecurityExampleHigh(trace);
  }

  lemma SecurityExampleLow(trace: string)
    requires trace == "Low: 2\nHigh: 1"
    ensures DigitAfter(trace, LOW_LABEL, "") == 2
  {
    assert LiteralAt(trace, 0, LOW_LABEL) && LiteralAt(trace, 6, "");
    DigitAfterLeftmost(trace, LOW_LABEL, "", 0);
  }

  lemma SecurityExampleHigh(trace: string)
    requires trace == "Low: 2\nHigh: 1"
    ensures DigitAfter(trace, HIGH_LABEL, "") == 1
  {
    forall i | 0 <= i < 7 ensures !LiteralAt(trace, i, HIGH_LABEL) {
      NotLiteralAt(trace, i, HIGH_LABEL);
    }
    assert LiteralAt(trace, 7, HIGH_LABEL) && LiteralAt(trace, 14, "");
    DigitAfterLeftmost(trace, HIGH_LABEL, "", 7);
  }

  /** A single-digit count is read. */
  lemma DependenciesExample(trace: string)
    requires trace == "Safety found 5 vulnerabilities"
    ensures VulnerableDependencies(trace) == 5
  {
    assert LiteralAt(trace, 0, SAFETY_LABEL) && LiteralAt(trace, 14, SAFETY_SUFFIX);
    DigitAfterLeftmost(trace, SAFETY_LABEL, SAFETY_SUFFIX, 0);
  }

  /**
   * A count of two or more digits does not fit the single-digit group, so
   * a report such as "Safety found 12 vulnerabilities" counts 0.
   */
  lemma {:induction false} MultiDigitCountIgnored(trace: string, count: string)
    requires AllDigits(count) && |count| >= 2
    requires trace == SAFETY_LABEL + count + SAFETY_SUFFIX
    ensures VulnerableDependencies(trace) == 0
  {
    forall i | 0 <= i <= |trace| ensures !DigitRuleAt(trace, i, SAFETY_LABEL, SAFETY_SUFFIX) {
      NoSafetyMatchAt(trace, count, i);
    }
  }

  lemma NoSafetyMatchAt(trace: string, count: string, i: nat)
    requires AllDigits(count) && |count| >= 2
    requires trace == SAFETY_LABEL + count + SAFETY_SUFFIX
    ensures !DigitRuleAt(trace, i, SAFETY_LABEL, SAFETY_SUFFIX)
  {
    var n := |SAFETY_LABEL|;
    if i == 0 {
      // the digit after the label is followed by another digit, not by the suffix
      assert trace[n + 1] == count[1];
      NotLiteralAt(trace, n + 1, SAFETY_SUFFIX);
    } else if i < n {
      assert trace[i] == SAFETY_LABEL[i];
      NotLiteralAt(trace, i, SAFETY_LABEL);
    } else if i < n + |count| {
      assert trace[i] == count[i - n];
      NotLiteralAt(trace, i, SAFETY_LABEL);
    } else {
      // too close to the end for label, digit and suffix
    }
  }
}
