/**
 * The identifier extractor: `extract_api_id_from_gid` searches its input
 * for the regular expression  gid://gitlab/([a-zA-Z0-9:]+)/(\d+)  and
 * returns the second group of the leftmost match, or "" when there is none.
 */
module Gid {
  import opened Wrappers
  import opened Text

  const SCHEME := "gid://gitlab/"

  /** The class [a-zA-Z0-9:] of the type-name group. */
  predicate IsTypeNameChar(c: char) {
    'a' <= c <= 'z' || 'A' <= c <= 'Z' || '0' <= c <= '9' || c == ':'
  }

  /**
   * Regular-expression semantics: the pattern matches s[i..k] with the
   * type-name group s[i + |SCHEME|..j] and the id group s[j + 1..k].
   */
  ghost predicate GidSpan(s: string, i: nat, j: nat, k: nat) {
    LiteralAt(s, i, SCHEME) && i + |SCHEME| < j < |s| &&
    (forall t | i + |SCHEME| <= t < j :: IsTypeNameChar(s[t])) &&
    s[j] == '/' && j + 1 < k <= |s| &&
    (forall t | j + 1 <= t < k :: IsDigit(s[t]))
  }

  /**
   * The check the search performs at position i: the scheme, then a
   * non-empty type name, which can only end where the class ends because
   * '/' is not in it, then '/' and at least one digit.
   */
  predicate MatchAt(s: string, i: nat) {
    LiteralAt(s, i, SCHEME) &&
    var j := RunEnd(s, i + |SCHEME|, IsTypeNameChar);
    i + |SCHEME| < j && j + 1 < |s| && s[j] == '/' && IsDigit(s[j + 1])
  }

  /** The leftmost position where the search finds a match. */
  function FirstMatch(gid: string): (r: Option<nat>)
    ensures r.None? <==> forall i | 0 <= i <= |gid| :: !MatchAt(gid, i)
    ensures r.Some? ==> r.value <= |gid| && MatchAt(gid, r.value)
    ensures r.Some? ==> forall i | 0 <= i < r.value :: !MatchAt(gid, i)
  {
    var matchAt := (i: nat) => MatchAt(gid, i);
    var r := FirstWhere(0, |gid|, matchAt);
    assert r.None? ==> forall i | 0 <= i <= |gid| :: !MatchAt(gid, i) by {
      forall i | 0 <= i <= |gid| && r.None? ensures !MatchAt(gid, i) {
        assert !matchAt(i);
      }
    }
    assert r.Some? ==> forall i | 0 <= i < r.value :: !MatchAt(gid, i) by {
      forall i | r.Some? && 0 <= i < r.value ensures !MatchAt(gid, i) {
        assert !matchAt(i);
      }
    }
    r
  }

  function ExtractApiIdFromGid(gid: string): (id: string)
    ensures id == "" || AllDigits(id)
  {
    match FirstMatch(gid)
    case None => ""
    case Some(i) => IdGroup(gid, i)
  }

  /** The second group of a match found at i: the digits after the type name's '/'. */
  function IdGroup(gid: string, i: nat): (id: string)
    requires MatchAt(gid, i)
    ensures id != "" && AllDigits(id)
  {
    var j := RunEnd(gid, i + |SCHEME|, IsTypeNameChar);
    var k := RunEnd(gid, j + 1, IsDigit);
    assert IsDigit(gid[j + 1]);
    gid[j + 1..k]
  }

  /** The search's check at i agrees with the regular expression's semantics. */
  lemma MatchAtIff(s: string, i: nat)
    ensures MatchAt(s, i) <==> exists j: nat, k: nat :: GidSpan(s, i, j, k)
  {
    if MatchAt(s, i) {
      var j := RunEnd(s, i + |SCHEME|, IsTypeNameChar);
      var k := RunEnd(s, j + 1, IsDigit);
      assert GidSpan(s, i, j, k);
    }
    if j: nat, k: nat :| GidSpan(s, i, j, k) {
      RunEndUnique(s, i + |SCHEME|, IsTypeNameChar, j);
    }
  }

  /** The extractor returns "" exactly when the pattern occurs nowhere in the input. */
  lemma {:induction false} ExtractEmptyIff(gid: string)
    ensures ExtractApiIdFromGid(gid) == "" <==> forall i: nat, j: nat, k: nat :: !GidSpan(gid, i, j, k)
  {
    var first := FirstMatch(gid);
    if first.None? {
      forall i: nat, j: nat, k: nat | GidSpan(gid, i, j, k) ensures false {
        MatchAtIff(gid, i);
      }
    } else {
      MatchAtIff(gid, first.value);
    }
  }

  /** A non-empty result is a run of digits cut out of the input. */
  lemma ExtractIsInfix(gid: string)
    ensures var id := ExtractApiIdFromGid(gid);
      id != "" ==> AllDigits(id) && exists a, b | 0 <= a <= b <= |gid| :: id == gid[a..b]
  {
    match FirstMatch(gid)
    case None =>
    case Some(i) =>
      var j := RunEnd(gid, i + |SCHEME|, IsTypeNameChar);
      var k := RunEnd(gid, j + 1, IsDigit);
      ExtractAtFirstMatch(gid, i, j, k);
  }

  /** A span no earlier span precedes is where the search stops. */
  lemma LeftmostSpanIsFirstMatch(gid: string, i: nat, j: nat, k: nat)
    requires GidSpan(gid, i, j, k)
    requires forall i': nat, j': nat, k': nat :: i' < i ==> !GidSpan(gid, i', j', k')
    ensures FirstMatch(gid) == Some(i)
  {
    forall i' | 0 <= i' < i ensures !MatchAt(gid, i') {
      MatchAtIff(gid, i');
    }
    MatchAtIff(gid, i);
  }

  /**
   * The result is the id group of the leftmost match, taken as long as
   * the digits go (the greedy \d+ cannot be extended past k).
   */
  lemma {:induction false} ExtractIsLeftmostGreedyGroup(gid: string, i: nat, j: nat, k: nat)
    requires GidSpan(gid, i, j, k)
    requires forall i': nat, j': nat, k': nat :: i' < i ==> !GidSpan(gid, i', j', k')
    requires k < |gid| ==> !IsDigit(gid[k])
    ensures ExtractApiIdFromGid(gid) == gid[j + 1..k]
  {
    LeftmostSpanIsFirstMatch(gid, i, j, k);
    RunEndUnique(gid, i + |SCHEME|, IsTypeNameChar, j);
    RunEndUnique(gid, j + 1, IsDigit, k);
    ExtractAtFirstMatch(gid, i, j, k);
  }

  lemma ExtractAtFirstMatch(gid: string, i: nat, j: nat, k: nat)
    requires FirstMatch(gid) == Some(i)
    requires RunEnd(gid, i + |SCHEME|, IsTypeNameChar) == j && RunEnd(gid, j + 1, IsDigit) == k
    ensures ExtractApiIdFromGid(gid) == gid[j + 1..k]
  {
    assert IdGroup(gid, i) == gid[j + 1..k];
  }

  /**
   * A well-formed global id yields its numeric part: for a non-empty type
   * name and a non-empty digit string not followed by another digit, the
   * extractor returns exactly those digits.
   */
  lemma WellFormedGidYieldsId(typeName: string, digits: string, rest: string)
    requires |typeName| > 0 && forall t | 0 <= t < |typeName| :: IsTypeNameChar(typeName[t])
    requires |digits| > 0 && AllDigits(digits)
    requires rest == [] || !IsDigit(rest[0])
    ensures ExtractApiIdFromGid(SCHEME + typeName + "/" + digits + rest) == digits
  {
    var head := SCHEME + typeName + "/";
    var g := head + digits + rest;
    var p, j := |SCHEME|, |SCHEME| + |typeName|;
    var k := j + 1 + |digits|;
    assert LiteralAt(g, 0, SCHEME) by {
      forall t | 0 <= t < p ensures g[t] == SCHEME[t] {
        assert g[t] == head[t];
      }
    }
    assert forall t | p <= t < j :: IsTypeNameChar(g[t]) by {
      forall t | p <= t < j ensures g[t] == typeName[t - p] {
        assert g[t] == head[t];
      }
    }
    assert g[j] == '/' by {
      assert g[j] == head[j];
    }
    assert forall t | j + 1 <= t < k :: IsDigit(g[t]) by {
      forall t | j + 1 <= t < k ensures g[t] == digits[t - j - 1] {}
    }
    assert GidSpan(g, 0, j, k);
    assert k < |g| ==> g[k] == rest[0];
    ExtractIsLeftmostGreedyGroup(g, 0, j, k);
    assert g[j + 1..k] == digits;
  }

  /** Example: the id of a CI build. */
  lemma BuildIdExample(b: string)
    requires b == "gid://gitlab/CI::Build/482617"
    ensures ExtractApiIdFromGid(b) == "482617"
  {
    assert b == SCHEME + "CI::Build" + "/" + "482617" + "";
    WellFormedGidYieldsId("CI::Build", "482617", "");
  }

  /** Example: text after the digits is not part of the id. */
  lemma TrailingTextExample(p: string)
    requires p == "gid://gitlab/Project/42x"
    ensures ExtractApiIdFromGid(p) == "42"
  {
    assert p == SCHEME + "Project" + "/" + "42" + "x";
    WellFormedGidYieldsId("Project", "42", "x");
  }

  /** An input in which the scheme occurs nowhere yields no id. */
  lemma WithoutSchemeNothingExtracted(s: string)
    requires forall i: nat :: !LiteralAt(s, i, SCHEME)
    ensures ExtractApiIdFromGid(s) == ""
  {
    ExtractEmptyIff(s);
  }

  /** Example: without the scheme nothing is extracted. */
  lemma MissingSchemeExample(s: string)
    requires s == "gitlab/Project/42"
    ensures ExtractApiIdFromGid(s) == ""
  {
    forall i: nat ensures !LiteralAt(s, i, SCHEME) {
      if i + |SCHEME| <= |s| {
        assert s[i + 3] != SCHEME[3];
      }
    }
    WithoutSchemeNothingExtracted(s);
  }
}
