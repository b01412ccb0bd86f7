/** The orchestrator that runs the evaluation pipeline: it keeps the current
    job description and rubric, the latest record of each level and the
    latest verdict, and an append-only list of every record produced.  Each
    stage checks that the stages it depends on have run; a failed check
    raises and leaves the state as it was.  The language-model replies, the
    GitHub API's status code and the configured thresholds are inputs. */
module Orchestration {

  import opened Results
  import opened Text
  import Configuration
  import JdProcessor
  import ResumeEvaluator
  import GithubAnalyzer
  import FinalVerdict

  /** An entry of the results list: the three kinds of record appended to it */
  datatype Record =
    | Level1Record(l1: ResumeEvaluator.Level1Result)
    | Level2Record(l2: GithubAnalyzer.Level2Result)
    | VerdictRecord(verdict: FinalVerdict.Verdict)

  /** One report entry per record, or the key whose lookup raises */
  datatype Report =
    | NoEvaluations
    | Listing(entries: seq<ResumeEvaluator.Level1Result>)
    | MissingKey(index: nat, key: String)

  // The messages the stages raise with
  const JdInputMissing: String := "Either jd_text or jd_file_path must be provided"
  const JdFirst: String := "Job Description must be processed first. Call process_jd()"
  const RubricFirst: String := "Rubric must be generated first. Call generate_rubric()"
  const SetupFirst: String := "Job Description and Rubric must be set up first. Call process_jd() and generate_rubric()"
  const ResumeInputMissing: String := "Either resume_text or resume_file_path must be provided"
  const JdFirstForGithub: String := "Must process JD first (Step 1) before GitHub analysis"
  const JdFirstForVerdict: String := "Job Description must be processed first"
  const Level1First: String := "Level 1 (Resume) evaluation must be completed first"
  const Level2First: String := "Level 2 (GitHub) evaluation must be completed first"

  /** The report a results list gives, read from position i on: a Level 2
      record has no "evaluation" entry and a verdict record no "level" entry,
      so the first of either raises KeyError. */
  function ReportFrom(results: seq<Record>, i: nat): (r: Report)
    requires i <= |results|
    decreases |results| - i
    ensures r.NoEvaluations? ==> false
    ensures r.Listing? ==> |r.entries| == |results| - i
    ensures r.MissingKey? ==> i <= r.index < |results|
  {
    if i == |results| then Listing([])
    else match results[i]
      case Level1Record(l1) =>
        var rest := ReportFrom(results, i + 1);
        if rest.Listing? then Listing([l1] + rest.entries) else rest
      case Level2Record(_) => MissingKey(i, "evaluation")
      case VerdictRecord(_) => MissingKey(i, "level")
  }

  /** The report of the whole list; an empty list reports that nothing was evaluated. */
  function ReportOf(results: seq<Record>): Report
  {
    if |results| == 0 then NoEvaluations else ReportFrom(results, 0)
  }

  /** The report is a listing exactly when every record is a Level 1 record,
      and then it lists them in order. */
  lemma {:induction false} ReportFromListing(results: seq<Record>, i: nat)
    requires i <= |results|
    decreases |results| - i
    ensures ReportFrom(results, i).Listing? <==> forall k :: i <= k < |results| ==> results[k].Level1Record?
    ensures ReportFrom(results, i).Listing? ==>
      forall k :: i <= k < |results| ==> ReportFrom(results, i).entries[k - i] == results[k].l1
  {
    if i < |results| {
      ReportFromListing(results, i + 1);
    }
  }

  /** Otherwise the report names the first record that is not a Level 1 record
      and the key its lookup misses. */
  lemma {:induction false} ReportFromMissing(results: seq<Record>, i: nat)
    requires i <= |results|
    decreases |results| - i
    ensures ReportFrom(results, i).MissingKey? ==>
      var m := ReportFrom(results, i);
      (forall k :: i <= k < m.index ==> results[k].Level1Record?) &&
      !results[m.index].Level1Record? &&
      m.key == (if results[m.index].Level2Record? then "evaluation" else "level")
  {
    if i < |results| {
      ReportFromMissing(results, i + 1);
    }
  }

  /** "No evaluations performed yet." is answered exactly when the list is empty. */
  lemma ReportEmpty(results: seq<Record>)
    ensures ReportOf(results) == NoEvaluations <==> |results| == 0
  {
  }

  class HiringFramework {
    var currentJd: Option<JdProcessor.JdInfo>
    var currentRubric: Option<String>
    var evaluationResults: seq<Record>
    var latestLevel1: Option<ResumeEvaluator.Level1Result>
    var latestLevel2: Option<GithubAnalyzer.Level2Result>
    var latestLevel3: Option<FinalVerdict.Level3Result>
    var latestFinalVerdict: Option<FinalVerdict.Verdict>

    /** A JD record is never empty, so it counts as present once set. */
    predicate HasJd()
      reads this
    {
      currentJd.Some?
    }

    /** An empty rubric counts as missing. */
    predicate HasRubric()
      reads this
    {
      currentRubric.Some? && currentRubric.value != ""
    }

    /** What every reachable state satisfies: a rubric, a Level 1 or 2
        evaluation and a verdict are only made for a JD, the latest records are the
        ones in the list, and nothing ever stores a Level 3 record. */
    predicate Valid()
      reads this
    {
      (currentRubric.Some? ==> currentJd.Some?)
      && (latestLevel1.Some? ==> HasJd() && Level1Record(latestLevel1.value) in evaluationResults)
      && (latestLevel2.Some? ==> HasJd() && Level2Record(latestLevel2.value) in evaluationResults)
      && (latestFinalVerdict.Some? ==> HasJd() && VerdictRecord(latestFinalVerdict.value) in evaluationResults)
      && latestLevel3.None?
    }

    /** Every slot starts empty. */
    constructor ()
      ensures currentJd.None? && currentRubric.None? && evaluationResults == []
      ensures latestLevel1.None? && latestLevel2.None? && latestLevel3.None? && latestFinalVerdict.None?
      ensures Valid()
    {
      currentJd := None;
      currentRubric := None;
      evaluationResults := [];
      latestLevel1 := None;
      latestLevel2 := None;
      latestLevel3 := None;
      latestFinalVerdict := None;
    }

    /** Step 1.1: an empty text raises; otherwise the JD record replaces the
        current one and nothing else changes. */
    method ProcessJd(jdText: String, reply: String) returns (r: Outcome<JdProcessor.JdInfo>)
      requires Valid()
      modifies this
      ensures Valid()
      ensures r.Err? <==> jdText == ""
      ensures r.Err? ==> r.error == JdInputMissing && unchanged(this)
      ensures r.Ok? ==> r.value == JdProcessor.ExtractJdRequirements(jdText, reply) && currentJd == Some(r.value)
      ensures currentRubric == old(currentRubric) && evaluationResults == old(evaluationResults)
      ensures latestLevel1 == old(latestLevel1) && latestLevel2 == old(latestLevel2)
      ensures latestLevel3 == old(latestLevel3) && latestFinalVerdict == old(latestFinalVerdict)
    {
      if jdText == "" {
        return Err(JdInputMissing);
      }
      var info := JdProcessor.ExtractJdRequirements(jdText, reply);
      currentJd := Some(info);
      r := Ok(info);
    }

    /** Step 1.2: without a JD it raises; otherwise the cleaned reply becomes
        the current rubric and nothing else changes. */
    method GenerateRubric(reply: String) returns (r: Outcome<JdProcessor.RubricData>)
      requires Valid()
      modifies this
      ensures Valid()
      ensures r.Err? <==> !old(HasJd())
      ensures r.Err? ==> r.error == JdFirst && unchanged(this)
      ensures r.Ok? ==> currentJd.Some? && r.value == JdProcessor.GenerateRubric(currentJd.value, reply)
      ensures r.Ok? ==> currentRubric == Some(JdProcessor.CleanCodeBlocks(reply))
      ensures currentJd == old(currentJd) && evaluationResults == old(evaluationResults)
      ensures latestLevel1 == old(latestLevel1) && latestLevel2 == old(latestLevel2)
      ensures latestLevel3 == old(latestLevel3) && latestFinalVerdict == old(latestFinalVerdict)
    {
      if !HasJd() {
        return Err(JdFirst);
      }
      var data := JdProcessor.GenerateRubric(currentJd.value, reply);
      StoreRubric(data.rubric);
      r := Ok(data);
    }

    /** Step 1.3: without a (non-empty) rubric it raises; otherwise the reply
        replaces the rubric and nothing else changes. */
    method RefineRubricWithFeedback(feedback: String, reply: String) returns (r: Outcome<JdProcessor.RefinedRubric>)
      requires Valid()
      modifies this
      ensures Valid()
      ensures r.Err? <==> !old(HasRubric())
      ensures r.Err? ==> r.error == RubricFirst && unchanged(this)
      ensures r.Ok? ==> r.value == JdProcessor.RefineRubric(old(currentRubric.value), feedback, reply)
      ensures r.Ok? ==> currentRubric == Some(reply) && r.value.appliedFeedback == feedback
      ensures currentJd == old(currentJd) && evaluationResults == old(evaluationResults)
      ensures latestLevel1 == old(latestLevel1) && latestLevel2 == old(latestLevel2)
      ensures latestLevel3 == old(latestLevel3) && latestFinalVerdict == old(latestFinalVerdict)
    {
      if !HasRubric() {
        return Err(RubricFirst);
      }
      var refined := JdProcessor.RefineRubric(currentRubric.value, feedback, reply);
      currentRubric := Some(refined.rubric);
      r := Ok(refined);
    }

    /** Step 2: without a JD and a non-empty rubric, or with an empty resume,
        it raises; otherwise exactly one Level 1 record, judged against the
        configured level-1 threshold, is appended and becomes the latest. */
    method EvaluateResumeLevel1(
      resumeText: String, structuredReply: String, nameReply: Option<String>, evaluationReply: String,
      cfg: Configuration.Config)
      returns (r: Outcome<ResumeEvaluator.Level1Result>)
      requires Valid()
      modifies this
      ensures Valid()
      ensures r.Err? <==> !old(HasJd()) || !old(HasRubric()) || resumeText == ""
      ensures r.Err? && !(old(HasJd()) && old(HasRubric())) ==>
        r.error == SetupFirst
      ensures r.Err? && old(HasJd()) && old(HasRubric()) ==>
        r.error == ResumeInputMissing
      ensures r.Err? ==> unchanged(this)
      ensures r.Ok? ==> r.value == ResumeAgent(resumeText, structuredReply, nameReply, evaluationReply, cfg.GetThreshold(1))
      ensures r.Ok? ==> evaluationResults == old(evaluationResults) + [Level1Record(r.value)] && latestLevel1 == Some(r.value)
      ensures currentJd == old(currentJd) && currentRubric == old(currentRubric)
      ensures latestLevel2 == old(latestLevel2) && latestLevel3 == old(latestLevel3) && latestFinalVerdict == old(latestFinalVerdict)
    {
      if !HasJd() || !HasRubric() {
        return Err(SetupFirst);
      }
      if resumeText == "" {
        return Err(ResumeInputMissing);
      }
      var evaluation := ResumeAgent(resumeText, structuredReply, nameReply, evaluationReply, cfg.GetThreshold(1));
      StoreLevel1(evaluation);
      r := Ok(evaluation);
    }

    /** The rubric slot takes the new rubric; nothing else changes. */
    method StoreRubric(rubric: String)
      requires Valid() && HasJd()
      modifies this
      ensures Valid()
      ensures currentRubric == Some(rubric)
      ensures currentJd == old(currentJd) && evaluationResults == old(evaluationResults)
      ensures latestLevel1 == old(latestLevel1) && latestLevel2 == old(latestLevel2)
      ensures latestLevel3 == old(latestLevel3) && latestFinalVerdict == old(latestFinalVerdict)
    {
      currentRubric := Some(rubric);
    }

    /** The Level 2 record is appended and becomes the latest; nothing else changes. */
    method StoreLevel2(result: GithubAnalyzer.Level2Result)
      requires Valid() && HasJd()
      modifies this
      ensures Valid()
      ensures evaluationResults == old(evaluationResults) + [Level2Record(result)] && latestLevel2 == Some(result)
      ensures currentJd == old(currentJd) && currentRubric == old(currentRubric)
      ensures latestLevel1 == old(latestLevel1) && latestLevel3 == old(latestLevel3) && latestFinalVerdict == old(latestFinalVerdict)
    {
      evaluationResults := evaluationResults + [Level2Record(result)];
      latestLevel2 := Some(result);
    }

    /** The verdict becomes the latest and is appended; nothing else changes. */
    method StoreVerdict(verdict: FinalVerdict.Verdict)
      requires Valid() && HasJd()
      modifies this
      ensures Valid()
      ensures evaluationResults == old(evaluationResults) + [VerdictRecord(verdict)] && latestFinalVerdict == Some(verdict)
      ensures currentJd == old(currentJd) && currentRubric == old(currentRubric)
      ensures latestLevel1 == old(latestLevel1) && latestLevel2 == old(latestLevel2) && latestLevel3 == old(latestLevel3)
    {
      latestFinalVerdict := Some(verdict);
      evaluationResults := evaluationResults + [VerdictRecord(verdict)];
    }

    /** The Level 1 record is appended and becomes the latest; nothing else changes. */
    method StoreLevel1(evaluation: ResumeEvaluator.Level1Result)
      requires Valid() && HasJd()
      modifies this
      ensures Valid()
      ensures evaluationResults == old(evaluationResults) + [Level1Record(evaluation)] && latestLevel1 == Some(evaluation)
      ensures currentJd == old(currentJd) && currentRubric == old(currentRubric)
      ensures latestLevel2 == old(latestLevel2) && latestLevel3 == old(latestLevel3) && latestFinalVerdict == old(latestFinalVerdict)
    {
      evaluationResults := evaluationResults + [Level1Record(evaluation)];
      latestLevel1 := Some(evaluation);
    }

    /** Level 2: without a JD it raises, and so does a user name the API does
        not know; otherwise exactly one Level 2 record, judged against the
        configured level-2 threshold, is appended and becomes the latest. */
    method AnalyzeGithub(githubUrl: String, status: Option<int>, reply: String, cfg: Configuration.Config)
      returns (r: Outcome<GithubAnalyzer.Level2Result>)
      requires Valid()
      modifies this
      ensures Valid()
      ensures r.Err? <==> !old(HasJd()) || status == Some(404)
      ensures r.Err? && !old(HasJd()) ==> r.error == JdFirstForGithub
      ensures r.Err? && old(HasJd()) ==>
        r.error == GithubAnalyzer.ValidateUsername(GithubAnalyzer.ExtractGithubUsername(githubUrl), status).error
      ensures r.Err? ==> unchanged(this)
      ensures r.Ok? ==> Ok(r.value) == GithubAnalyzer.AnalyzeGithubProfile(githubUrl, status, reply, cfg.GetThreshold(2))
      ensures r.Ok? ==> evaluationResults == old(evaluationResults) + [Level2Record(r.value)] && latestLevel2 == Some(r.value)
      ensures currentJd == old(currentJd) && currentRubric == old(currentRubric)
      ensures latestLevel1 == old(latestLevel1) && latestLevel3 == old(latestLevel3) && latestFinalVerdict == old(latestFinalVerdict)
    {
      if !HasJd() {
        return Err(JdFirstForGithub);
      }
      var outcome := GithubAnalyzer.AnalyzeGithubProfile(githubUrl, status, reply, cfg.GetThreshold(2));
      match outcome
      case Err(e) =>
        r := Err(e);
      case Ok(result) =>
        StoreLevel2(result);
        r := Ok(result);
    }

    /** Step 5: the records given override the stored latest ones; without a
        JD, or with no Level 1 or no Level 2 record either way, it raises;
        otherwise the verdict is appended and becomes the latest. */
    method GenerateFinalVerdict(
      level1: Option<ResumeEvaluator.Level1Result>, level2: Option<GithubAnalyzer.Level2Result>,
      level3: Option<FinalVerdict.Level3Result>, verdictReply: String)
      returns (r: Outcome<FinalVerdict.Verdict>)
      requires Valid()
      modifies this
      ensures Valid()
      ensures r.Err? <==> !old(HasJd()) || Given(level1, old(latestLevel1)).None? || Given(level2, old(latestLevel2)).None?
      ensures r.Err? && !old(HasJd()) ==> r.error == JdFirstForVerdict
      ensures r.Err? && old(HasJd()) && Given(level1, old(latestLevel1)).None? ==>
        r.error == Level1First
      ensures r.Err? && old(HasJd()) && Given(level1, old(latestLevel1)).Some? ==>
        r.error == Level2First
      ensures r.Err? ==> unchanged(this)
      ensures r.Ok? ==> r.value == FinalVerdict.GenerateFinalVerdict(
        Given(level1, old(latestLevel1)).value, Given(level2, old(latestLevel2)).value, level3, verdictReply)
      ensures r.Ok? ==> evaluationResults == old(evaluationResults) + [VerdictRecord(r.value)] && latestFinalVerdict == Some(r.value)
      ensures currentJd == old(currentJd) && currentRubric == old(currentRubric)
      ensures latestLevel1 == old(latestLevel1) && latestLevel2 == old(latestLevel2) && latestLevel3 == old(latestLevel3)
    {
      if !HasJd() {
        return Err(JdFirstForVerdict);
      }
      var l1 := Given(level1, latestLevel1);
      var l2 := Given(level2, latestLevel2);
      var l3 := Given(level3, latestLevel3);
      if l1.None? {
        return Err(Level1First);
      }
      if l2.None? {
        return Err(Level2First);
      }
      var verdict := FinalVerdict.GenerateFinalVerdict(l1.value, l2.value, l3, verdictReply);
      StoreVerdict(verdict);
      r := Ok(verdict);
    }

    /** The report over the results list, read record by record in order. */
    method GetEvaluationReport() returns (r: Report)
      ensures r == ReportOf(evaluationResults)
    {
      var results := evaluationResults;
      if |results| == 0 {
        return NoEvaluations;
      }
      var entries: seq<ResumeEvaluator.Level1Result> := [];
      var i := 0;
      while i < |results|
        invariant 0 <= i <= |results|
        invariant ReportFrom(results, 0) == Prefixed(entries, ReportFrom(results, i))
        decreases |results| - i
      {
        match results[i]
        case Level2Record(_) =>
          return MissingKey(i, "evaluation");
        case VerdictRecord(_) =>
          return MissingKey(i, "level");
        case Level1Record(l1) =>
          PrefixedStep(entries, l1, ReportFrom(results, i + 1));
          entries := entries + [l1];
          i := i + 1;
      }
      assert entries + [] == entries;
      r := Listing(entries);
    }

    /** Every slot returns to its initial value. */
    method Reset()
      modifies this
      ensures currentJd.None? && currentRubric.None? && evaluationResults == []
      ensures latestLevel1.None? && latestLevel2.None? && latestLevel3.None? && latestFinalVerdict.None?
      ensures Valid()
    {
      currentJd := None;
      currentRubric := None;
      evaluationResults := [];
      latestLevel1 := None;
      latestLevel2 := None;
      latestLevel3 := None;
      latestFinalVerdict := None;
    }
  }

  /** The resume agent's two steps: the resume record is extracted from the
      text, then evaluated at Level 1 against the threshold. */
  function ResumeAgent(
    resumeText: String, structuredReply: String, nameReply: Option<String>, evaluationReply: String,
    threshold: real): ResumeEvaluator.Level1Result
  {
    ResumeEvaluator.EvaluateLevel1(
      ResumeEvaluator.ExtractResumeInfo(resumeText, structuredReply, nameReply), evaluationReply, threshold)
  }

  /** Python's `given or stored` on an optional record: the given one when
      there is one, else the stored one. */
  function Given<T>(given: Option<T>, stored: Option<T>): (r: Option<T>)
    ensures given.Some? ==> r == given
    ensures given.None? ==> r == stored
  {
    if given.Some? then given else stored
  }

  /** Entries already read, in front of the report of the rest */
  function Prefixed(entries: seq<ResumeEvaluator.Level1Result>, rest: Report): Report
  {
    if rest.Listing? then Listing(entries + rest.entries) else rest
  }

  lemma PrefixedStep(entries: seq<ResumeEvaluator.Level1Result>, l1: ResumeEvaluator.Level1Result, rest: Report)
    ensures Prefixed(entries, Prefixed([l1], rest)) == Prefixed(entries + [l1], rest)
  {
    if rest.Listing? {
      assert entries + ([l1] + rest.entries) == (entries + [l1]) + rest.entries;
    }
  }
}
