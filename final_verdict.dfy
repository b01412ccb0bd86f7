/** The deterministic parts of the final-verdict agent: the weighted composite
    of the level scores, the level count, the all-levels-passed flag, and
    reading the decision and the confidence out of the verdict reply. */
module FinalVerdict {

  import opened Results
  import opened Text
  import ResumeEvaluator
  import GithubAnalyzer

  /** The keys of a Level 3 (coding) record that the verdict reads; either may
      be absent.  An empty Level 3 dictionary is falsy in the source and is
      modelled as no Level 3 record at all. */
  datatype Level3Result = Level3Result(score: Option<int>, passed: Option<bool>)

  /** The verdict record (its status is always "final_verdict_generated"). */
  datatype Verdict = Verdict(
    decision: String, confidence: String, compositeScore: real,
    level1Score: Option<nat>, level2Score: Option<nat>, level3Score: Option<int>,
    allLevelsPassed: bool, verdictText: String, totalLevelsEvaluated: nat)

  // ---------------------------------------------------------------------
  // Composite score

  /** A score as the composite reads it: a missing one counts as 0. */
  function ScoreOrZero(score: Option<nat>): nat { if score.Some? then score.value else 0 }

  function Level3ScoreOrZero(l3: Level3Result): int { if l3.score.Some? then l3.score.value else 0 }

  /** The composite as the source computes it: a Level 1 or Level 2 record
      whose score is None (its reply had no "d/10") makes the multiplication
      raise a TypeError. */
  function CompositeAsWritten(l1: Option<nat>, l2: Option<nat>, l3: Option<Level3Result>): (r: Outcome<real>)
    ensures r.Err? <==> l1.None? || l2.None?
    ensures r.Ok? ==> r.value == Composite(l1, l2, l3)
  {
    if l1.None? || l2.None? then Err("unsupported operand type(s) for *: 'NoneType' and 'float'")
    else Ok(Composite(l1, l2, l3))
  }

  /** The composite with a missing score counted as 0: half each of Level 1
      and Level 2, or 3/10, 3/10 and 4/10 when a Level 3 record is given.
      The weights sum to one, so the composite lies between the smallest and
      the largest score it weighs. */
  function Composite(l1: Option<nat>, l2: Option<nat>, l3: Option<Level3Result>): (c: real)
    ensures l3.None? ==> c == (ScoreOrZero(l1) + ScoreOrZero(l2)) as real / 2.0
    ensures l3.Some? ==> c == (3 * ScoreOrZero(l1) + 3 * ScoreOrZero(l2) + 4 * Level3ScoreOrZero(l3.value)) as real / 10.0
  {
    var s1 := ScoreOrZero(l1) as real;
    var s2 := ScoreOrZero(l2) as real;
    if l3.Some? then s1 * 0.3 + s2 * 0.3 + Level3ScoreOrZero(l3.value) as real * 0.4
    else s1 * 0.5 + s2 * 0.5
  }

  /** Scores on the 0..10 scale give a composite on the 0..10 scale. */
  lemma CompositeInRange(l1: Option<nat>, l2: Option<nat>, l3: Option<Level3Result>)
    requires ScoreOrZero(l1) <= 10 && ScoreOrZero(l2) <= 10
    requires l3.Some? ==> 0 <= Level3ScoreOrZero(l3.value) <= 10
    ensures 0.0 <= Composite(l1, l2, l3) <= 10.0
  {
  }

  /** The composite is bounded by the scores it weighs. */
  lemma CompositeBetween(l1: Option<nat>, l2: Option<nat>, l3: Option<Level3Result>, lo: int, hi: int)
    requires lo <= ScoreOrZero(l1) <= hi && lo <= ScoreOrZero(l2) <= hi
    requires l3.Some? ==> lo <= Level3ScoreOrZero(l3.value) <= hi
    ensures lo as real <= Composite(l1, l2, l3) <= hi as real
  {
  }

  /** Equal scores give that score back: the weights sum to one. */
  lemma CompositeOfEqualScores(x: nat, l3: Option<Level3Result>)
    requires l3.Some? ==> Level3ScoreOrZero(l3.value) == x
    ensures Composite(Some(x), Some(x), l3) == x as real
  {
    CompositeBetween(Some(x), Some(x), l3, x, x);
  }

  /** The as-written composite fails on every Level 1 reply that carries no
      score, such as an empty one. */
  lemma CompositeAsWrittenFailsWithoutScore(info: ResumeEvaluator.ResumeInfo, threshold: real, l2: Option<nat>, l3: Option<Level3Result>)
    ensures ResumeEvaluator.ExtractScore("") == None
    ensures CompositeAsWritten(ResumeEvaluator.EvaluateLevel1(info, "", threshold).score, l2, l3).Err?
  {
    ResumeEvaluator.ExtractScoreNone("");
    assert ResumeEvaluator.BareScoreAt("", 0).None?;
  }

  /** Two levels, or three with a Level 3 record */
  function TotalLevels(l3: Option<Level3Result>): (n: nat)
    ensures n == 2 || n == 3
    ensures n == 3 <==> l3.Some?
  {
    if l3.Some? then 3 else 2
  }

  /** Both first levels passed, and the Level 3 record, if any, does not say it
      failed (a record without a `passed` key counts as passed). */
  function AllLevelsPassed(l1Passed: bool, l2Passed: bool, l3: Option<Level3Result>): (r: bool)
    ensures r ==> l1Passed && l2Passed
    ensures l3.None? ==> (r <==> l1Passed && l2Passed)
    ensures l3.Some? && l3.value.passed.None? ==> (r <==> l1Passed && l2Passed)
    ensures l3.Some? && l3.value.passed == Some(false) ==> !r
    ensures l3.Some? && l3.value.passed == Some(true) ==> (r <==> l1Passed && l2Passed)
  {
    l1Passed && l2Passed && (if l3.Some? then (if l3.value.passed.Some? then l3.value.passed.value else true) else true)
  }

  // ---------------------------------------------------------------------
  // Decision

  // `(HIRE|NO\s*HIRE|NO_HIRE)` at j, ignoring case: the captured text
  function DecisionTokenAt(s: String, j: nat): (r: Option<String>)
    ensures r.Some? ==> j + |r.value| <= |s| && r.value == s[j..j + |r.value|]
    ensures r.Some? ==> (|r.value| == 4 <==> StartsAtCI(s, j, "hire"))
  {
    if StartsAtCI(s, j, "hire") then Some(s[j..j + 4])
    else if StartsAtCI(s, j, "no") && StartsAtCI(s, j + 2 + SpaceRun(s, j + 2), "hire") then
      var e := j + 2 + SpaceRun(s, j + 2) + 4;
      assert |s[j..e]| >= 6;
      Some(s[j..e])
    else if StartsAtCI(s, j, "no_hire") then Some(s[j..j + 7])
    else None
  }

  // `prefix\s*(HIRE|NO\s*HIRE|NO_HIRE)` at i, ignoring case
  function DecisionAfter(s: String, i: nat, prefix: String): (r: Option<String>)
    ensures r.Some? ==> StartsAtCI(s, i, prefix)
    ensures r.Some? ==> r == DecisionTokenAt(s, i + |prefix| + SpaceRun(s, i + |prefix|))
  {
    if StartsAtCI(s, i, prefix) then DecisionTokenAt(s, i + |prefix| + SpaceRun(s, i + |prefix|)) else None
  }

  // `DECISION:\s*(...)`
  function DecisionLabelAt(s: String, i: nat): Option<String> { DecisionAfter(s, i, "decision:") }

  // `RECOMMENDATION:\s*(...)`
  function RecommendationLabelAt(s: String, i: nat): Option<String> { DecisionAfter(s, i, "recommendation:") }

  // `FINAL\s+DECISION:\s*(...)`
  function FinalDecisionLabelAt(s: String, i: nat): (r: Option<String>)
    ensures r.Some? ==> exists j: nat :: j <= |s| && r == DecisionLabelAt(s, j)
  {
    var w := SpaceRun(s, i + 5);
    if StartsAtCI(s, i, "final") && w > 0 then
      var r := DecisionAfter(s, i + 5 + w, "decision:");
      assert r == DecisionLabelAt(s, i + 5 + w);
      r
    else None
  }

  /** The labelled decision: the first of the three patterns that occurs */
  function LabelledDecision(text: String): Option<String>
  {
    var d := Search(text, DecisionLabelAt);
    var r := Search(text, RecommendationLabelAt);
    if d.Some? then d else if r.Some? then r else Search(text, FinalDecisionLabelAt)
  }

  /** Upper-cased, blanks turned into underscores: "HIRE" stays, every other
      capture reads as "NO_HIRE". */
  function Normalize(token: String): (r: String)
    ensures r == "HIRE" || r == "NO_HIRE"
  {
    if ReplaceChar(Upper(token), ' ', "_") == "HIRE" then "HIRE" else "NO_HIRE"
  }

  /** The decision in the verdict reply: a labelled decision wins; failing that,
      a recommendation to hire is looked for before a recommendation against;
      the default is "NO_HIRE". */
  function ExtractDecision(text: String): (r: String)
    ensures r == "HIRE" || r == "NO_HIRE"
    ensures LabelledDecision(text).Some? ==> r == Normalize(LabelledDecision(text).value)
    ensures LabelledDecision(text).None? ==>
      (r == "HIRE" <==> Contains(Lower(text), "recommend hiring") || Contains(Lower(text), "should be hired"))
  {
    match LabelledDecision(text)
    case Some(token) => Normalize(token)
    case None =>
      if Contains(Lower(text), "recommend hiring") || Contains(Lower(text), "should be hired") then "HIRE"
      else if Contains(Lower(text), "not recommend") || Contains(Lower(text), "should not be hired") then "NO_HIRE"
      else "NO_HIRE"
  }

  /** The third pattern adds nothing: wherever "FINAL DECISION: ..." occurs,
      "DECISION: ..." occurs too, so the first pattern already matched. */
  lemma FinalDecisionSubsumed(text: String)
    ensures Search(text, FinalDecisionLabelAt).Some? ==> Search(text, DecisionLabelAt).Some?
    ensures LabelledDecision(text).Some? <==>
      Search(text, DecisionLabelAt).Some? || Search(text, RecommendationLabelAt).Some?
  {
    if Search(text, FinalDecisionLabelAt).Some? {
      var p :| 0 <= p <= |text| && FinalDecisionLabelAt(text, p).Some?;
      var j: nat :| j <= |text| && FinalDecisionLabelAt(text, p) == DecisionLabelAt(text, j);
    }
  }

  /** A captured token normalises to "HIRE" exactly when it is the word "hire"
      itself, in any case. */
  lemma NormalizeToken(s: String, j: nat)
    requires DecisionTokenAt(s, j).Some?
    ensures Normalize(DecisionTokenAt(s, j).value) == "HIRE" <==> StartsAtCI(s, j, "hire")
  {
    var token := DecisionTokenAt(s, j).value;
    var n := ReplaceChar(Upper(token), ' ', "_");
    if StartsAtCI(s, j, "hire") {
      forall k | 0 <= k < 4
        ensures Upper(token)[k] == "HIRE"[k]
      {
        assert token[k] == s[j + k];
        UpperOfFolded(s[j + k], "hire"[k]);
      }
      assert Upper(token) == "HIRE";
      ReplaceCharAbsent(Upper(token), ' ', "_");
    } else {
      assert |n| == |token| != 4;
    }
  }

  /** A character that folds to the lower-case letter x upper-cases as x does. */
  lemma UpperOfFolded(c: char, x: char)
    requires LowerChar(c) == x && IsLower(x)
    ensures UpperChar(c) == UpperChar(x)
  {
  }

  // ---------------------------------------------------------------------
  // Confidence

  // `CONFIDENCE:\s*(High|Medium|Low)` at i, ignoring case: the captured text
  // and the level word it spells
  function ConfidenceAt(s: String, i: nat): (r: Option<(String, String)>)
    ensures r.Some? ==> r.value.1 in ["high", "medium", "low"]
    ensures r.Some? ==> |r.value.0| == |r.value.1| && forall k :: 0 <= k < |r.value.0| ==> LowerChar(r.value.0[k]) == r.value.1[k]
  {
    if StartsAtCI(s, i, "confidence:") then
      var j := i + 11 + SpaceRun(s, i + 11);
      if StartsAtCI(s, j, "high") then Some((s[j..j + 4], "high"))
      else if StartsAtCI(s, j, "medium") then Some((s[j..j + 6], "medium"))
      else if StartsAtCI(s, j, "low") then Some((s[j..j + 3], "low"))
      else None
    else None
  }

  /** The capitalised confidence level, or "Medium" when none is stated. */
  function ExtractConfidence(text: String): (r: String)
    ensures r == "High" || r == "Medium" || r == "Low"
    ensures Search(text, ConfidenceAt).None? ==> r == "Medium"
    ensures Search(text, ConfidenceAt).Some? ==> Lower(r) == Search(text, ConfidenceAt).value.1
  {
    var found := Search(text, ConfidenceAt);
    if found.Some? then
      ConfidenceFound(text, found);
      CapitalizeFolded(found.value.0, found.value.1);
      Capitalize(found.value.0)
    else "Medium"
  }

  lemma ConfidenceFound(text: String, found: Option<(String, String)>)
    requires found == Search(text, ConfidenceAt) && found.Some?
    ensures found.value.1 in ["high", "medium", "low"]
    ensures |found.value.0| == |found.value.1|
    ensures forall k :: 0 <= k < |found.value.0| ==> LowerChar(found.value.0[k]) == found.value.1[k]
  {
    var p :| 0 <= p <= |text| && ConfidenceAt(text, p) == found;
  }

  /** Capitalising a word that folds to "high", "medium" or "low" spells it
      with one leading capital. */
  lemma CapitalizeFolded(token: String, word: String)
    requires word in ["high", "medium", "low"]
    requires |token| == |word| && forall k :: 0 <= k < |token| ==> LowerChar(token[k]) == word[k]
    ensures Capitalize(token) == (if word == "high" then "High" else if word == "medium" then "Medium" else "Low")
    ensures Lower(Capitalize(token)) == word
  {
    CapitalizeLowerWord(token, word);
    var w := if word == "high" then "High" else if word == "medium" then "Medium" else "Low";
    assert [UpperChar(word[0])] + word[1..] == w;
    assert Lower(w) == word;
  }

  /** A token folding to a lower-case word capitalises to that word with its
      first letter in upper case. */
  lemma CapitalizeLowerWord(token: String, word: String)
    requires |word| > 0 && IsLower(word[0])
    requires |token| == |word| && forall k :: 0 <= k < |token| ==> LowerChar(token[k]) == word[k]
    ensures Capitalize(token) == [UpperChar(word[0])] + Lower(token[1..])
    ensures Lower(token[1..]) == word[1..]
  {
    UpperOfFolded(token[0], word[0]);
    assert Lower(token[1..]) == word[1..];
  }

  // ---------------------------------------------------------------------
  // Verdict record

  /** The verdict record built from the two level records, the optional Level 3
      record and the verdict reply. */
  function GenerateFinalVerdict(
    l1: ResumeEvaluator.Level1Result, l2: GithubAnalyzer.Level2Result,
    l3: Option<Level3Result>, verdictText: String): (v: Verdict)
    ensures v.decision == ExtractDecision(verdictText) && v.confidence == ExtractConfidence(verdictText)
    ensures v.compositeScore == Composite(l1.score, l2.score, l3)
    ensures v.level1Score == l1.score && v.level2Score == l2.score
    ensures l3.Some? ==> v.level3Score == l3.value.score
    ensures l3.None? ==> v.level3Score.None?
    ensures v.allLevelsPassed == AllLevelsPassed(l1.passed, l2.passed, l3)
    ensures v.totalLevelsEvaluated == TotalLevels(l3)
    ensures v.verdictText == verdictText
  {
    Verdict(ExtractDecision(verdictText), ExtractConfidence(verdictText), Composite(l1.score, l2.score, l3),
            l1.score, l2.score, if l3.Some? then l3.value.score else None,
            AllLevelsPassed(l1.passed, l2.passed, l3), verdictText, TotalLevels(l3))
  }
}
