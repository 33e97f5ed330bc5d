/**
 * Python's float() applied to the text captured by the code-quality rule.
 * The capture is made only of '-', '.' and decimal digits; over that
 * alphabet float() accepts an optional leading '-', then digits with at
 * most one decimal point and at least one digit ("8.42", "-1.0", "7.",
 * ".5"), and raises ValueError on everything else ("", "-", ".", "1.2.3",
 * "9-").
 */
module FloatLiteral {
  import opened Wrappers
  import opened Text

  /** float() raising ValueError on the given text. */
  datatype ParseError = CouldNotConvert(text: string)

  /** The class [-0-9.] of the captured score. */
  predicate IsNumeralChar(c: char) {
    c == '-' || IsDigit(c) || c == '.'
  }

  predicate AllNumeralChars(t: string) {
    forall k | 0 <= k < |t| :: IsNumeralChar(t[k])
  }

  /**
   * The texts over [-0-9.] that float() accepts, stated independently of
   * how ParseFloat splits its input: '-' only in front, at most one '.',
   * and some digit.
   */
  predicate FloatShaped(t: string) {
    (forall k | 0 < k < |t| :: t[k] != '-') &&
    (forall a, b | 0 <= a < b < |t| :: !(t[a] == '.' && t[b] == '.')) &&
    (exists k | 0 <= k < |t| :: IsDigit(t[k]))
  }

  predicate NotDot(c: char) { c != '.' }

  /** The text without its leading '-'. */
  function Unsigned(t: string): (u: string)
    ensures |u| <= |t|
  {
    if |t| > 0 && t[0] == '-' then t[1..] else t
  }

  /** Digits before the decimal point (the whole text if there is none). */
  function WholePart(t: string): string {
    var u := Unsigned(t);
    u[..RunEnd(u, 0, NotDot)]
  }

  /** Digits after the first decimal point ("" if there is none). */
  function FractionPart(t: string): string {
    var u := Unsigned(t);
    var d := RunEnd(u, 0, NotDot);
    if d < |u| then u[d + 1..] else ""
  }

  predicate WellSplit(t: string) {
    AllDigits(WholePart(t)) && AllDigits(FractionPart(t)) && |WholePart(t)| + |FractionPart(t)| > 0
  }

  function ParseFloat(t: string): (r: Result<real, ParseError>)
    requires AllNumeralChars(t)
    ensures r.Ok? <==> FloatShaped(t)
    ensures r.Err? ==> r.error == CouldNotConvert(t)
  {
    WellSplitIff(t);
    if WellSplit(t) then
      var whole, fraction := WholePart(t), FractionPart(t);
      var magnitude := DecimalValue(whole) as real + DecimalValue(fraction) as real / Pow10(|fraction|) as real;
      Ok(if |t| > 0 && t[0] == '-' then -magnitude else magnitude)
    else
      Err(CouldNotConvert(t))
  }

  /** Splitting at the first decimal point succeeds exactly on the shapes float() accepts. */
  lemma WellSplitIff(t: string)
    requires AllNumeralChars(t)
    ensures WellSplit(t) <==> FloatShaped(t)
  {
    if WellSplit(t) {
      WellSplitIsShaped(t);
    }
    if FloatShaped(t) {
      ShapedIsWellSplit(t);
    }
  }

  /** Offset of the unsigned text inside t. */
  function SignWidth(t: string): (o: nat)
    ensures o <= |t| && |Unsigned(t)| == |t| - o
    ensures forall k | 0 <= k < |Unsigned(t)| :: Unsigned(t)[k] == t[k + o]
  {
    if |t| > 0 && t[0] == '-' then 1 else 0
  }

  lemma WellSplitIsShaped(t: string)
    requires WellSplit(t)
    ensures FloatShaped(t)
  {
    OnlyPointIsNotDigit(t);
    NoLateMinus(t);
    AtMostOnePoint(t);
    WellSplitHasDigit(t);
  }

  lemma NoLateMinus(t: string)
    requires forall k | 0 <= k < |Unsigned(t)| && k != RunEnd(Unsigned(t), 0, NotDot) :: IsDigit(Unsigned(t)[k])
    ensures forall k | 0 < k < |t| :: t[k] != '-'
  {
    var u, o := Unsigned(t), SignWidth(t);
    var d := RunEnd(u, 0, NotDot);
    forall k | 0 < k < |t| ensures t[k] != '-' {
      if o == 0 { assert t[k] == u[k]; } else { assert t[k] == u[k - 1]; }
    }
  }

  lemma AtMostOnePoint(t: string)
    requires forall k | 0 <= k < |Unsigned(t)| && k != RunEnd(Unsigned(t), 0, NotDot) :: IsDigit(Unsigned(t)[k])
    ensures forall a, b | 0 <= a < b < |t| :: !(t[a] == '.' && t[b] == '.')
  {
    var u, o := Unsigned(t), SignWidth(t);
    var d := RunEnd(u, 0, NotDot);
    forall a, b | 0 <= a < b < |t| ensures !(t[a] == '.' && t[b] == '.') {
      if t[a] == '.' {
        assert a >= o && u[a - o] == t[a];
        assert t[b] == u[b - o] && b - o != d;
      }
    }
  }

  lemma WellSplitHasDigit(t: string)
    requires WellSplit(t)
    ensures exists k | 0 <= k < |t| :: IsDigit(t[k])
  {
    var u, o := Unsigned(t), SignWidth(t);
    var d := RunEnd(u, 0, NotDot);
    var w, f := WholePart(t), FractionPart(t);
    if |w| > 0 {
      assert IsDigit(t[o]) by { assert t[o] == u[0] == w[0]; }
    } else {
      assert IsDigit(t[d + 1 + o]) by { assert t[d + 1 + o] == u[d + 1] == f[0]; }
    }
  }

  /** In a well-split text every character after the sign is a digit, except the first '.'. */
  lemma OnlyPointIsNotDigit(t: string)
    requires WellSplit(t)
    ensures forall k | 0 <= k < |Unsigned(t)| && k != RunEnd(Unsigned(t), 0, NotDot) :: IsDigit(Unsigned(t)[k])
  {
    var u := Unsigned(t);
    var d := RunEnd(u, 0, NotDot);
    var w, f := WholePart(t), FractionPart(t);
    forall k | 0 <= k < |u| && k != d ensures IsDigit(u[k]) {
      if k < d { assert u[k] == w[k]; } else { assert u[k] == f[k - d - 1]; }
    }
  }

  lemma ShapedIsWellSplit(t: string)
    requires AllNumeralChars(t)
    requires FloatShaped(t)
    ensures WellSplit(t)
  {
    UnsignedChars(t);
    WholeDigits(t);
    FractionDigits(t);
    var g :| 0 <= g < |t| && IsDigit(t[g]);
    SplitKeepsDigit(t, g);
  }

  /** After the sign, a shaped text holds only digits and points. */
  lemma UnsignedChars(t: string)
    requires AllNumeralChars(t)
    requires forall k | 0 < k < |t| :: t[k] != '-'
    ensures forall k | 0 <= k < |Unsigned(t)| :: Unsigned(t)[k] != '-' && IsNumeralChar(Unsigned(t)[k])
  {
    var u, o := Unsigned(t), SignWidth(t);
    forall k | 0 <= k < |u| ensures u[k] != '-' && IsNumeralChar(u[k]) {
      assert u[k] == t[k + o];
    }
  }

  lemma WholeDigits(t: string)
    requires forall k | 0 <= k < |Unsigned(t)| :: Unsigned(t)[k] != '-' && IsNumeralChar(Unsigned(t)[k])
    ensures AllDigits(WholePart(t))
  {
    var u, w := Unsigned(t), WholePart(t);
    forall k | 0 <= k < |w| ensures IsDigit(w[k]) {
      assert w[k] == u[k] && NotDot(u[k]);
    }
  }

  lemma FractionDigits(t: string)
    requires forall k | 0 <= k < |Unsigned(t)| :: Unsigned(t)[k] != '-' && IsNumeralChar(Unsigned(t)[k])
    requires forall a, b | 0 <= a < b < |t| :: !(t[a] == '.' && t[b] == '.')
    ensures AllDigits(FractionPart(t))
  {
    var u, o := Unsigned(t), SignWidth(t);
    var d := RunEnd(u, 0, NotDot);
    var f := FractionPart(t);
    forall k | 0 <= k < |f| ensures IsDigit(f[k]) {
      assert d < |u| && f[k] == u[d + 1 + k];
      assert t[d + o] == u[d] == '.';
      assert t[d + 1 + k + o] != '.';
    }
  }

  /** A digit anywhere in the text lands in the whole or the fraction part. */
  lemma SplitKeepsDigit(t: string, g: nat)
    requires g < |t| && IsDigit(t[g])
    ensures |WholePart(t)| + |FractionPart(t)| > 0
  {
    var u, o := Unsigned(t), SignWidth(t);
    var d := RunEnd(u, 0, NotDot);
    assert g >= o && u[g - o] == t[g];
    assert |WholePart(t)| == d;
    if d < |u| {
      assert u[d] == '.';
      assert |FractionPart(t)| == |u| - d - 1;
    }
  }

  /** The number a decimal literal with digits w before and f after the point denotes. */
  function DecimalMagnitude(w: string, f: string): real
    requires AllDigits(w) && AllDigits(f)
  {
    DecimalValue(w) as real + DecimalValue(f) as real / Pow10(|f|) as real
  }

  /** Writing a decimal literal and reading it back gives its value: "w.f" and "-w.f". */
  lemma {:induction false} ParseDecimalLiteral(w: string, f: string)
    requires AllDigits(w) && AllDigits(f) && |w| + |f| > 0
    ensures AllNumeralChars(w + "." + f) && ParseFloat(w + "." + f) == Ok(DecimalMagnitude(w, f))
    ensures AllNumeralChars("-" + (w + "." + f)) && ParseFloat("-" + (w + "." + f)) == Ok(-DecimalMagnitude(w, f))
  {
    ParseSignedLiteral(w, f, false);
    ParseSignedLiteral(w, f, true);
  }

  lemma ParseSignedLiteral(w: string, f: string, negative: bool)
    requires AllDigits(w) && AllDigits(f) && |w| + |f| > 0
    ensures var t := if negative then "-" + (w + "." + f) else w + "." + f;
      AllNumeralChars(t) && ParseFloat(t) == Ok(if negative then -DecimalMagnitude(w, f) else DecimalMagnitude(w, f))
  {
    var t := if negative then "-" + (w + "." + f) else w + "." + f;
    DecimalLiteralSplits(w, f, t);
    ParseSplit(t, w, f);
  }

  lemma ParseSplit(t: string, w: string, f: string)
    requires AllNumeralChars(t) && AllDigits(w) && AllDigits(f) && |w| + |f| > 0
    requires WholePart(t) == w && FractionPart(t) == f
    ensures ParseFloat(t) == Ok(if |t| > 0 && t[0] == '-' then -DecimalMagnitude(w, f) else DecimalMagnitude(w, f))
  {
  }

  lemma DecimalLiteralSplits(w: string, f: string, t: string)
    requires AllDigits(w) && AllDigits(f) && |w| + |f| > 0
    requires t == w + "." + f || t == "-" + (w + "." + f)
    ensures AllNumeralChars(t) && WholePart(t) == w && FractionPart(t) == f
    ensures (|t| > 0 && t[0] == '-') <==> t == "-" + (w + "." + f)
  {
    var u := w + "." + f;
    assert forall k | 0 <= k < |w| :: u[k] == w[k];
    assert forall k | 0 <= k < |f| :: u[|w| + 1 + k] == f[k];
    assert u[|w|] == '.';
    assert AllNumeralChars(u);
    if t == u {
      assert t[0] != '-';
    } else {
      assert t[1..] == u;
    }
    SplitsAt(t, w, f);
  }

  lemma SplitsAt(t: string, w: string, f: string)
    requires AllDigits(w) && AllDigits(f)
    requires Unsigned(t) == w + "." + f
    ensures WholePart(t) == w && FractionPart(t) == f
  {
    var u := Unsigned(t);
    assert forall k | 0 <= k < |w| :: u[k] == w[k];
    RunEndUnique(u, 0, NotDot, |w|);
    assert u[..|w|] == w;
    assert u[|w| + 1..] == f;
  }

  /** An integer literal reads back as its value: "w" and "-w". */
  lemma {:induction false} ParseIntegerLiteral(w: string)
    requires AllDigits(w) && |w| > 0
    ensures AllNumeralChars(w) && ParseFloat(w) == Ok(DecimalValue(w) as real)
    ensures AllNumeralChars("-" + w) && ParseFloat("-" + w) == Ok(-(DecimalValue(w) as real))
  {
    RunEndUnique(w, 0, NotDot, |w|);
    assert w[..|w|] == w;
    var n := "-" + w;
    assert n[1..] == w;
  }

  /** Texts the capture admits but float() rejects. */
  lemma RejectedLiterals(s: string)
    requires s in ["", "-", ".", "-.", "1.2.3", "9-"]
    ensures AllNumeralChars(s) && ParseFloat(s) == Err(CouldNotConvert(s))
  {
    if s == "1.2.3" {
      assert s[1] == '.' && s[3] == '.';
    } else if s == "9-" {
      assert s[1] == '-';
    } else {
      assert forall k | 0 <= k < |s| :: !IsDigit(s[k]);
    }
  }

  /** A rating as pylint prints it. */
  lemma RatingLiteral(t: string)
    requires t == "8.42"
    ensures AllNumeralChars(t) && ParseFloat(t) == Ok(8.42)
  {
    var w, f := "8", "42";
    assert t == w + "." + f;
    DecimalLiteralSplits(w, f, t);
    ParseSplit(t, w, f);
    assert DecimalValue(f) == 42 by {
      assert f[..1] == "4";
    }
  }

  /** The sign is kept. */
  lemma NegativeRatingLiteral(t: string)
    requires t == "-1.0"
    ensures AllNumeralChars(t) && ParseFloat(t) == Ok(-1.0)
  {
    var w, f := "1", "0";
    assert t == "-" + (w + "." + f);
    DecimalLiteralSplits(w, f, t);
    ParseSplit(t, w, f);
  }

}
