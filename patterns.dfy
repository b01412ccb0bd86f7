/** Regular-expression matchers shared by the resume evaluator and the GitHub
    analyzer.  Each matcher is applied at one position and says whether the
    pattern matches there and what its first group captured; `Text.Search`
    turns it into `re.search`.  In every pattern here a greedy run is followed
    by a character outside the run's class, so the greedy reading is the only
    one the regex engine can succeed with. */
module Patterns {

  import opened Results
  import opened Text

  /** `[a-zA-Z0-9-]` */
  predicate IsNameChar(c: char) { IsAlnum(c) || c == '-' }

  /** `([a-zA-Z0-9-]+)` at i: the captured name */
  function NameAt(s: String, i: nat): (r: Option<String>)
    ensures r.Some? ==> |r.value| > 0 && forall k :: 0 <= k < |r.value| ==> IsNameChar(r.value[k])
    ensures r.Some? ==> i + |r.value| <= |s| && r.value == s[i..i + |r.value|]
    ensures r.Some? ==> i + |r.value| == |s| || !IsNameChar(s[i + |r.value|])
    ensures r.None? ==> i >= |s| || !IsNameChar(s[i])
  {
    var n := RunLength(s, i, IsNameChar);
    if n > 0 then Some(s[i..i + n]) else None
  }

  /** `github\.com/([a-zA-Z0-9-]+)` at i, ignoring case */
  function ProfilePathAt(s: String, i: nat): (r: Option<String>)
    ensures r.Some? ==> StartsAtCI(s, i, "github.com/") && r == NameAt(s, i + 11)
  {
    if StartsAtCI(s, i, "github.com/") then NameAt(s, i + 11) else None
  }

  // ---------------------------------------------------------------------
  // Score fractions

  // Digits s[i..j], blanks s[j..k], '/' at k, blanks s[k+1..l] and "10" at l:
  // one way the pattern `\d+\s*/\s*10` (or, unspaced, `\d+/10`) can cover
  // the text from i.
  ghost predicate FractionShape(s: String, i: nat, j: nat, k: nat, l: nat, spaced: bool)
  {
    i < j <= k < l && l + 2 <= |s|
    && (forall x :: i <= x < j ==> IsDigit(s[x]))
    && (forall x :: j <= x < k ==> IsSpace(s[x]))
    && s[k] == '/'
    && (forall x :: k + 1 <= x < l ==> IsSpace(s[x]))
    && s[l] == '1' && s[l + 1] == '0'
    && (!spaced ==> j == k && l == k + 1)
  }

  // `(\d+)\s*/\s*10` (spaced) or `(\d+)/10` at i: the value of the digits
  function FractionAt(s: String, i: nat, spaced: bool): Option<nat>
  {
    var j := i + DigitRun(s, i);
    var k := if spaced then j + SpaceRun(s, j) else j;
    var l := if spaced then k + 1 + SpaceRun(s, k + 1) else k + 1;
    if j > i && k < |s| && s[k] == '/' && StartsAt(s, l, "10") then Some(DigitsValue(s[i..j])) else None
  }

  /** The matcher agrees with the pattern's own reading: it succeeds exactly
      when some covering exists. */
  lemma FractionAtIsPattern(s: String, i: nat, spaced: bool)
    ensures FractionAt(s, i, spaced).Some? <==> exists j: nat, k: nat, l: nat :: FractionShape(s, i, j, k, l, spaced)
  {
    var j := i + DigitRun(s, i);
    var k := if spaced then j + SpaceRun(s, j) else j;
    var l := if spaced then k + 1 + SpaceRun(s, k + 1) else k + 1;
    if FractionAt(s, i, spaced).Some? {
      GreedyFractionShape(s, i, j, k, l, spaced);
    } else {
      forall j': nat, k': nat, l': nat | FractionShape(s, i, j', k', l', spaced)
        ensures false
      {
        ShapeMatches(s, i, j', k', l', spaced);
      }
    }
  }

  /** Whatever covering is taken, the matcher yields the value of its digits. */
  lemma FractionAtValue(s: String, i: nat, spaced: bool)
    ensures forall j: nat, k: nat, l: nat :: FractionShape(s, i, j, k, l, spaced) ==>
      FractionAt(s, i, spaced) == Some(DigitsValue(s[i..j]))
  {
    forall j: nat, k: nat, l: nat | FractionShape(s, i, j, k, l, spaced)
      ensures FractionAt(s, i, spaced) == Some(DigitsValue(s[i..j]))
    {
      ShapeMatches(s, i, j, k, l, spaced);
    }
  }

  lemma ShapeMatches(s: String, i: nat, j: nat, k: nat, l: nat, spaced: bool)
    requires FractionShape(s, i, j, k, l, spaced)
    ensures FractionAt(s, i, spaced) == Some(DigitsValue(s[i..j]))
  {
    FractionShapeUnique(s, i, j, k, l, spaced);
    assert StartsAt(s, l, "10");
  }

  /** When the matcher succeeds, its greedy runs form a covering. */
  lemma GreedyFractionShape(s: String, i: nat, j: nat, k: nat, l: nat, spaced: bool)
    requires j == i + DigitRun(s, i)
    requires k == (if spaced then j + SpaceRun(s, j) else j)
    requires l == (if spaced then k + 1 + SpaceRun(s, k + 1) else k + 1)
    requires FractionAt(s, i, spaced).Some?
    ensures FractionShape(s, i, j, k, l, spaced)
  {
    assert StartsAt(s, l, "10");
    assert s[l] == '1' && s[l + 1] == '0' by { assert s[l + 0] == "10"[0]; assert s[l + 1] == "10"[1]; }
  }

  /** A covering is the greedy one: each run is as long as it can be. */
  lemma FractionShapeUnique(s: String, i: nat, j: nat, k: nat, l: nat, spaced: bool)
    requires FractionShape(s, i, j, k, l, spaced)
    ensures j == i + DigitRun(s, i)
    ensures k == (if spaced then j + SpaceRun(s, j) else j)
    ensures l == (if spaced then k + 1 + SpaceRun(s, k + 1) else k + 1)
  {
  }

  // `prefix\s*(\d+)\s*/\s*10` (spaced) or `prefix\s*(\d+)/10` at i, the prefix
  // matched ignoring case
  function LabelledFractionAt(s: String, i: nat, prefix: String, spaced: bool): (r: Option<nat>)
    ensures r.Some? ==> StartsAtCI(s, i, prefix)
    ensures r.Some? ==> r == FractionAt(s, i + |prefix| + SpaceRun(s, i + |prefix|), spaced)
  {
    if StartsAtCI(s, i, prefix) then FractionAt(s, i + |prefix| + SpaceRun(s, i + |prefix|), spaced) else None
  }
}
