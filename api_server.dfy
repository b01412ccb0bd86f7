/** The REST layer's own logic: the guards each endpoint checks before it
    calls the framework, the range-checked threshold update, and the file name
    of the exported PDF.  An endpoint's answer is a success with its data or an
    HTTP error with a status and a detail message. */
module ApiServer {

  import opened Results
  import opened Text
  import Configuration
  import JdProcessor
  import ResumeEvaluator
  import GithubAnalyzer
  import FinalVerdict
  import Orchestration

  datatype Response<T> = Success(data: T) | HttpError(status: int, detail: String)

  // ---------------------------------------------------------------------
  // Thresholds

  /** A threshold the API accepts lies between 0 and 10, both included. */
  predicate InRange(v: real) { 0.0 <= v <= 10.0 }

  /** A level whose value is either not supplied or in range passes the check. */
  predicate Acceptable(v: Option<real>) { v.None? || InRange(v.value) }

  /** The level whose check rejects the request: levels are checked 1, 2, 3 in
      order and the first supplied value out of range stops the request. */
  function FirstRejected(l1: Option<real>, l2: Option<real>, l3: Option<real>): (r: Option<int>)
    ensures r.None? <==> Acceptable(l1) && Acceptable(l2) && Acceptable(l3)
    ensures r == Some(1) <==> !Acceptable(l1)
    ensures r == Some(2) <==> Acceptable(l1) && !Acceptable(l2)
    ensures r == Some(3) <==> Acceptable(l1) && Acceptable(l2) && !Acceptable(l3)
    ensures r.Some? ==> 1 <= r.value <= 3
  {
    if !Acceptable(l1) then Some(1)
    else if !Acceptable(l2) then Some(2)
    else if !Acceptable(l3) then Some(3)
    else None
  }

  /** The value level k has once the request is over: the supplied one when
      the level's check ran and passed (every level before the rejected one),
      its previous value otherwise. */
  function ThresholdAfter(k: int, given: Option<real>, rejected: Option<int>, previous: real): (t: real)
    ensures given.None? ==> t == previous
    ensures rejected.Some? && k >= rejected.value ==> t == previous
    ensures given.Some? && (rejected.None? || k < rejected.value) ==> t == given.value
  {
    if given.Some? && (rejected.None? || k < rejected.value) then given.value else previous
  }

  function RangeMessage(level: int): String
  {
    if level == 1 then "Level 1 threshold must be between 0 and 10"
    else if level == 2 then "Level 2 threshold must be between 0 and 10"
    else "Level 3 threshold must be between 0 and 10"
  }

  /** A request whose supplied values are all in range writes each of them and
      leaves the omitted levels alone; otherwise it answers 400 for the first
      value out of range, and the levels checked before it keep what was
      written. */
  lemma ThresholdsAllAccepted(l1: Option<real>, l2: Option<real>, l3: Option<real>, p1: real, p2: real, p3: real)
    requires Acceptable(l1) && Acceptable(l2) && Acceptable(l3)
    ensures var rej := FirstRejected(l1, l2, l3);
      ThresholdAfter(1, l1, rej, p1) == (if l1.Some? then l1.value else p1) &&
      ThresholdAfter(2, l2, rej, p2) == (if l2.Some? then l2.value else p2) &&
      ThresholdAfter(3, l3, rej, p3) == (if l3.Some? then l3.value else p3)
  {
  }

  /** A rejected request never writes the rejected level or any after it. */
  lemma ThresholdsRejectedKeepLater(l1: Option<real>, l2: Option<real>, l3: Option<real>, p1: real, p2: real, p3: real)
    requires FirstRejected(l1, l2, l3).Some?
    ensures var k := FirstRejected(l1, l2, l3).value;
      (k <= 1 ==> ThresholdAfter(1, l1, Some(k), p1) == p1) &&
      (k <= 2 ==> ThresholdAfter(2, l2, Some(k), p2) == p2) &&
      ThresholdAfter(3, l3, Some(k), p3) == p3
  {
  }

  /** `POST /api/v1/config/thresholds`: each supplied level is checked and
      written in turn, 1, 2, 3; the first value outside [0, 10] answers 400 and
      stops, after the levels before it have been written.  A level left out
      is not touched.  On success the three current thresholds are returned. */
  method UpdateThresholds(cfg: Configuration.Config, l1: Option<real>, l2: Option<real>, l3: Option<real>)
    returns (r: Response<(real, real, real)>)
    modifies cfg
    ensures r.HttpError? <==> FirstRejected(l1, l2, l3).Some?
    ensures r.HttpError? ==> r.status == 400 && r.detail == RangeMessage(FirstRejected(l1, l2, l3).value)
    ensures cfg.level1Threshold == ThresholdAfter(1, l1, FirstRejected(l1, l2, l3), old(cfg.level1Threshold))
    ensures cfg.level2Threshold == ThresholdAfter(2, l2, FirstRejected(l1, l2, l3), old(cfg.level2Threshold))
    ensures cfg.level3Threshold == ThresholdAfter(3, l3, FirstRejected(l1, l2, l3), old(cfg.level3Threshold))
    ensures r.Success? ==> r.data == (cfg.level1Threshold, cfg.level2Threshold, cfg.level3Threshold)
  {
    if l1.Some? {
      if !InRange(l1.value) {
        return HttpError(400, RangeMessage(1));
      }
      cfg.SetThreshold(1, l1.value);
    }
    if l2.Some? {
      if !InRange(l2.value) {
        return HttpError(400, RangeMessage(2));
      }
      cfg.SetThreshold(2, l2.value);
    }
    if l3.Some? {
      if !InRange(l3.value) {
        return HttpError(400, RangeMessage(3));
      }
      cfg.SetThreshold(3, l3.value);
    }
    r := Success((cfg.level1Threshold, cfg.level2Threshold, cfg.level3Threshold));
  }

  /** `GET /api/v1/config/thresholds` */
  method GetThresholds(cfg: Configuration.Config) returns (r: (real, real, real))
    ensures r == (cfg.GetThreshold(1), cfg.GetThreshold(2), cfg.GetThreshold(3))
  {
    r := (cfg.level1Threshold, cfg.level2Threshold, cfg.level3Threshold);
  }

  // ---------------------------------------------------------------------
  // PDF file name

  /** `[^\w\s-]`: the characters the file name drops */
  predicate Unsafe(c: char) { !(IsWordChar(c) || IsSpace(c) || c == '-') }

  /** What a file name part may hold */
  predicate FileNameChar(c: char) { IsWordChar(c) || c == '-' }

  /** The candidate name with every character other than a word character,
      whitespace or '-' removed, then stripped */
  function SafeName(name: String): (r: String)
    ensures forall k :: 0 <= k < |r| ==> !Unsafe(r[k])
  {
    var f := Filter(name, Unsafe);
    Strip(f)
  }

  /** The words of the safe name */
  function NameParts(name: String): seq<String> { Words(SafeName(name)) }

  /** `candidate_evaluation_{first}_{last}.pdf` with two or more name parts,
      `candidate_evaluation_{only}.pdf` with one, and
      `candidate_evaluation_Candidate.pdf` with none. */
  function FileNameFromParts(parts: seq<String>): String
  {
    if |parts| >= 2 then Prefix + parts[0] + "_" + parts[|parts| - 1] + Extension
    else if |parts| == 1 then Prefix + parts[0] + Extension
    else Prefix + "Candidate" + Extension
  }

  /** The download name for a candidate name */
  function PdfFileName(name: String): String { FileNameFromParts(NameParts(name)) }

  /** Every part of the name is a non-empty run of word characters and '-'. */
  lemma NamePartChars(name: String)
    ensures forall w :: w in NameParts(name) ==> |w| > 0 && forall c :: c in w ==> FileNameChar(c)
  {
    var safe := SafeName(name);
    WordsFromText(safe);
    forall w, c | w in Words(safe) && c in w
      ensures FileNameChar(c)
    {
      assert c in safe;
      assert !IsSpace(c);
    }
  }

  /** Whatever the name, the file name holds only word characters, '-' and
      the '.' of its extension: no whitespace, quote or separator can reach
      the Content-Disposition header. */
  lemma PdfFileNameSafe(name: String)
    ensures forall c :: c in PdfFileName(name) ==> FileNameChar(c) || c == '.'
  {
    NamePartChars(name);
    FileNameFromSafeParts(NameParts(name));
  }

  /** Parts of safe characters make a file name of safe characters. */
  lemma FileNameFromSafeParts(parts: seq<String>)
    requires forall w :: w in parts ==> forall c :: c in w ==> FileNameChar(c)
    ensures forall c :: c in FileNameFromParts(parts) ==> FileNameChar(c) || c == '.'
  {
    FixedPartsSafe();
    if |parts| >= 2 {
      var first, last := parts[0], parts[|parts| - 1];
      assert first in parts && last in parts;
      PiecesSafe(Prefix + first, "_" + last + Extension);
    } else if |parts| == 1 {
      assert parts[0] in parts;
    }
  }

  const Prefix: String := "candidate_evaluation_"
  const Extension: String := ".pdf"

  /** The fixed pieces of the file name are made of safe characters. */
  lemma FixedPartsSafe()
    ensures forall c :: c in Prefix ==> FileNameChar(c)
    ensures forall c :: c in Extension ==> FileNameChar(c) || c == '.'
    ensures forall c :: c in "Candidate" ==> FileNameChar(c)
  {
    forall k | 0 <= k < |Prefix| ensures FileNameChar(Prefix[k]) {}
  }

  lemma PiecesSafe(a: String, b: String)
    requires forall c :: c in a ==> FileNameChar(c) || c == '.'
    requires forall c :: c in b ==> FileNameChar(c) || c == '.'
    ensures forall c :: c in a + b ==> FileNameChar(c) || c == '.'
  {
  }

  /** A word: non-empty, of word characters and '-' only */
  predicate IsNameWord(w: String) { |w| > 0 && forall k :: 0 <= k < |w| ==> FileNameChar(w[k]) }

  /** A first and a last name separated by a blank give
      `candidate_evaluation_{first}_{last}.pdf`, each part as written. */
  lemma PdfFileNameOfFullName(first: String, last: String)
    requires IsNameWord(first) && IsNameWord(last)
    ensures PdfFileName(first + " " + last) == Prefix + first + "_" + last + Extension
  {
    var name := first + " " + last;
    assert forall k :: 0 <= k < |name| ==> !Unsafe(name[k]) by {
      forall k | 0 <= k < |name| ensures !Unsafe(name[k]) {
        if k < |first| { assert name[k] == first[k]; }
        else if k > |first| { assert name[k] == last[k - |first| - 1]; }
      }
    }
    FilterKeepsSafe(name);
    assert name[0] == first[0] && name[|name| - 1] == last[|last| - 1];
    StripNoop(name);
    WordsOfTwo(first, last);
  }

  /** A single name gives `candidate_evaluation_{name}.pdf`. */
  lemma PdfFileNameOfSingleName(only: String)
    requires IsNameWord(only)
    ensures PdfFileName(only) == Prefix + only + Extension
  {
    FilterKeepsSafe(only);
    StripNoop(only);
    WordsOfOne(only);
  }

  lemma {:induction false} FilterKeepsSafe(s: String)
    requires forall k :: 0 <= k < |s| ==> !Unsafe(s[k])
    ensures Filter(s, Unsafe) == s
  {
    if |s| > 0 {
      FilterKeepsSafe(s[1..]);
      assert s == [s[0]] + s[1..];
    }
  }

  lemma {:induction false} WordsOfOne(w: String)
    requires IsNameWord(w)
    ensures Words(w) == [w]
  {
    WordsLeadingWord(w, []);
    assert w + [] == w;
    WordsEmpty([]);
  }

  lemma {:induction false} WordsOfTwo(a: String, b: String)
    requires IsNameWord(a) && IsNameWord(b)
    ensures Words(a + " " + b) == [a, b]
  {
    FirstOfTwo(a, b);
    WordsOfSpacedWord(b);
  }

  lemma {:induction false} WordsOfSpacedWord(b: String)
    requires IsNameWord(b)
    ensures Words(" " + b) == [b]
  {
    WordsLeadingSpace(b);
    WordsOfOne(b);
  }

  lemma {:induction false} FirstOfTwo(a: String, b: String)
    requires IsNameWord(a) && IsNameWord(b)
    ensures Words(a + " " + b) == [a] + Words(" " + b)
  {
    var rest := " " + b;
    assert rest[0] == ' ';
    WordsLeadingWord(a, rest);
    ConcatAssoc(a, " ", b);
  }

  lemma ConcatAssoc(a: String, b: String, c: String)
    ensures a + b + c == a + (b + c)
  {
  }

  /** A word followed by the end of the text or by whitespace is the first word. */
  lemma WordsLeadingWord(a: String, rest: String)
    requires IsNameWord(a)
    requires rest == [] || IsSpace(rest[0])
    ensures Words(a + rest) == [a] + Words(rest)
  {
    var s := a + rest;
    assert s[0] == a[0];
    RunLengthExact(s, 0, 0, IsSpace);
    assert TrimStart(s, IsSpace) == s;
    forall k | 0 <= k < |a| ensures NotSpace(s[k]) { assert s[k] == a[k]; }
    RunLengthExact(s, 0, |a|, NotSpace);
    assert s[..|a|] == a && s[|a|..] == rest;
  }

  /** Leading whitespace does not make a word. */
  lemma WordsLeadingSpace(b: String)
    requires |b| > 0 && !IsSpace(b[0])
    ensures Words(" " + b) == Words(b)
  {
    var s := " " + b;
    assert s[1] == b[0];
    RunLengthExact(s, 0, 1, IsSpace);
    assert TrimStart(s, IsSpace) == b;
    RunLengthExact(b, 0, 0, IsSpace);
    assert TrimStart(b, IsSpace) == b;
  }

  lemma WordsEmpty(s: String)
    requires s == []
    ensures Words(s) == []
  {
  }

  /** A name with nothing usable in it gives the fallback file name. */
  lemma PdfFileNameFallback(name: String)
    requires forall k :: 0 <= k < |name| ==> Unsafe(name[k]) || IsSpace(name[k])
    ensures PdfFileName(name) == "candidate_evaluation_Candidate.pdf"
  {
    BlankSafeName(name);
    WordsEmpty(SafeName(name));
    assert NameParts(name) == [];
  }

  /** Only whitespace survives the filter, and stripping removes it. */
  lemma BlankSafeName(name: String)
    requires forall k :: 0 <= k < |name| ==> Unsafe(name[k]) || IsSpace(name[k])
    ensures SafeName(name) == []
  {
    var f := Filter(name, Unsafe);
    forall k | 0 <= k < |f|
      ensures IsSpace(f[k])
    {
      assert f[k] in name;
      var j :| 0 <= j < |name| && name[j] == f[k];
    }
    AllSpaceStrips(f);
  }

  /** Stripping a text of whitespace only leaves nothing, and it has no words. */
  lemma AllSpaceStrips(f: String)
    requires forall k :: 0 <= k < |f| ==> IsSpace(f[k])
    ensures Strip(f) == []
  {
    var t := TrimStart(f, IsSpace);
    assert |t| == 0;
  }

  // ---------------------------------------------------------------------
  // Endpoints: the guards in front of the framework

  /** `POST /api/v1/jd/upload-text`: any error of the framework answers 500. */
  method UploadJdText(fw: Orchestration.HiringFramework, jdText: String, reply: String)
    returns (r: Response<JdProcessor.JdInfo>)
    requires fw.Valid()
    modifies fw
    ensures fw.Valid()
    ensures r.HttpError? <==> jdText == ""
    ensures r.HttpError? ==> r.status == 500 && unchanged(fw)
    ensures r.Success? ==> fw.currentJd == Some(r.data) && r.data.rawJd == jdText
  {
    var out := fw.ProcessJd(jdText, reply);
    match out
    case Err(e) => r := HttpError(500, e);
    case Ok(info) => r := Success(info);
  }

  /** `POST /api/v1/rubric/generate`: 400 unless a JD has been processed. */
  method GenerateRubric(fw: Orchestration.HiringFramework, reply: String)
    returns (r: Response<JdProcessor.RubricData>)
    requires fw.Valid()
    modifies fw
    ensures fw.Valid()
    ensures r.HttpError? <==> !old(fw.HasJd())
    ensures r.HttpError? ==> r.status == 400 && r.detail == "Job Description must be uploaded first" && unchanged(fw)
    ensures r.Success? ==> fw.currentRubric == Some(r.data.rubric) && r.data.rubric == JdProcessor.CleanCodeBlocks(reply)
    ensures fw.evaluationResults == old(fw.evaluationResults)
  {
    if !fw.HasJd() {
      return HttpError(400, "Job Description must be uploaded first");
    }
    var out := fw.GenerateRubric(reply);
    match out
    case Err(e) => r := HttpError(500, e);
    case Ok(data) => r := Success(data);
  }

  /** `GET /api/v1/rubric/current`: 404 exactly when there is no rubric. */
  method GetCurrentRubric(fw: Orchestration.HiringFramework) returns (r: Response<String>)
    ensures r.HttpError? <==> !fw.HasRubric()
    ensures r.HttpError? ==> r.status == 404 && r.detail == "No rubric generated yet"
    ensures r.Success? ==> fw.currentRubric == Some(r.data) && r.data != ""
  {
    if !fw.HasRubric() {
      return HttpError(404, "No rubric generated yet");
    }
    r := Success(fw.currentRubric.value);
  }

  /** `POST /api/v1/rubric/refine`: 400 unless there is a rubric. */
  method RefineRubric(fw: Orchestration.HiringFramework, feedback: String, reply: String)
    returns (r: Response<JdProcessor.RefinedRubric>)
    requires fw.Valid()
    modifies fw
    ensures fw.Valid()
    ensures r.HttpError? <==> !old(fw.HasRubric())
    ensures r.HttpError? ==> r.status == 400 && r.detail == "Rubric must be generated first" && unchanged(fw)
    ensures r.Success? ==> fw.currentRubric == Some(reply) && r.data.appliedFeedback == feedback
  {
    if !fw.HasRubric() {
      return HttpError(400, "Rubric must be generated first");
    }
    var out := fw.RefineRubricWithFeedback(feedback, reply);
    match out
    case Err(e) => r := HttpError(500, e);
    case Ok(refined) => r := Success(refined);
  }

  /** `POST /api/v1/resume/evaluate-text`: 400 unless a JD and a rubric are
      set up; an empty resume makes the framework raise, which answers 500. */
  method EvaluateResumeText(
    fw: Orchestration.HiringFramework, resumeText: String, structuredReply: String,
    nameReply: Option<String>, evaluationReply: String, cfg: Configuration.Config)
    returns (r: Response<ResumeEvaluator.Level1Result>)
    requires fw.Valid()
    modifies fw
    ensures fw.Valid()
    ensures r.HttpError? <==> !old(fw.HasJd()) || !old(fw.HasRubric()) || resumeText == ""
    ensures r.HttpError? && !(old(fw.HasJd()) && old(fw.HasRubric())) ==>
      r.status == 400 && r.detail == "JD and Rubric must be set up first"
    ensures r.HttpError? && old(fw.HasJd()) && old(fw.HasRubric()) ==> r.status == 500
    ensures r.HttpError? ==> unchanged(fw)
    ensures r.Success? ==> (fw.latestLevel1 == Some(r.data) &&
      fw.evaluationResults == old(fw.evaluationResults) + [Orchestration.Level1Record(r.data)])
  {
    if !fw.HasJd() || !fw.HasRubric() {
      return HttpError(400, "JD and Rubric must be set up first");
    }
    var out := fw.EvaluateResumeLevel1(resumeText, structuredReply, nameReply, evaluationReply, cfg);
    match out
    case Err(e) => r := HttpError(500, e);
    case Ok(evaluation) => r := Success(evaluation);
  }

  /** `POST /api/v1/github/analyze`: 400 unless a JD has been processed; a user
      name the GitHub API does not know raises ValueError, answered 400 with
      its message. */
  method AnalyzeGithub(fw: Orchestration.HiringFramework, githubUrl: String, status: Option<int>, reply: String, cfg: Configuration.Config)
    returns (r: Response<GithubAnalyzer.Level2Result>)
    requires fw.Valid()
    modifies fw
    ensures fw.Valid()
    ensures r.HttpError? <==> !old(fw.HasJd()) || status == Some(404)
    ensures r.HttpError? ==> r.status == 400 && unchanged(fw)
    ensures r.HttpError? && !old(fw.HasJd()) ==> r.detail == "JD must be processed first (Step 1)"
    ensures r.Success? ==> (fw.latestLevel2 == Some(r.data) &&
      fw.evaluationResults == old(fw.evaluationResults) + [Orchestration.Level2Record(r.data)])
  {
    if !fw.HasJd() {
      return HttpError(400, "JD must be processed first (Step 1)");
    }
    var out := fw.AnalyzeGithub(githubUrl, status, reply, cfg);
    match out
    case Err(e) => r := HttpError(400, e);
    case Ok(result) => r := Success(result);
  }

  /** `POST /api/v1/verdict/generate`: 400 unless a JD, a Level 1 and a Level 2
      record are stored; the verdict uses the stored records. */
  method GenerateVerdict(fw: Orchestration.HiringFramework, verdictReply: String)
    returns (r: Response<FinalVerdict.Verdict>)
    requires fw.Valid()
    modifies fw
    ensures fw.Valid()
    ensures r.HttpError? <==> !old(fw.HasJd()) || old(fw.latestLevel1).None? || old(fw.latestLevel2).None?
    ensures r.HttpError? ==> r.status == 400 && unchanged(fw)
    ensures r.HttpError? && !old(fw.HasJd()) ==> r.detail == "JD must be processed first (Step 1)"
    ensures r.HttpError? && old(fw.HasJd()) && old(fw.latestLevel1).None? ==>
      r.detail == "Level 1 (Resume) evaluation must be completed first"
    ensures r.HttpError? && old(fw.HasJd()) && old(fw.latestLevel1).Some? ==>
      r.detail == "Level 2 (GitHub) evaluation must be completed first"
    ensures r.Success? ==> (fw.latestFinalVerdict == Some(r.data) &&
      r.data == FinalVerdict.GenerateFinalVerdict(old(fw.latestLevel1).value, old(fw.latestLevel2).value, None, verdictReply))
  {
    if !fw.HasJd() {
      return HttpError(400, "JD must be processed first (Step 1)");
    }
    if fw.latestLevel1.None? {
      return HttpError(400, "Level 1 (Resume) evaluation must be completed first");
    }
    if fw.latestLevel2.None? {
      return HttpError(400, "Level 2 (GitHub) evaluation must be completed first");
    }
    var out := fw.GenerateFinalVerdict(None, None, None, verdictReply);
    match out
    case Err(e) => r := HttpError(500, e);
    case Ok(verdict) => r := Success(verdict);
  }

  /** `GET /api/v1/verdict/current`: 404 exactly when no verdict is stored. */
  method GetCurrentVerdict(fw: Orchestration.HiringFramework) returns (r: Response<FinalVerdict.Verdict>)
    ensures r.HttpError? <==> fw.latestFinalVerdict.None?
    ensures r.HttpError? ==> r.status == 404 && r.detail == "No final verdict generated yet"
    ensures r.Success? ==> fw.latestFinalVerdict == Some(r.data)
  {
    if fw.latestFinalVerdict.None? {
      return HttpError(404, "No final verdict generated yet");
    }
    r := Success(fw.latestFinalVerdict.value);
  }

  /** `GET /api/v1/export/pdf`: 400 unless a Level 1 record is stored; the file
      is named after the candidate name of that record.  (The PDF itself is
      not part of this model; the answer carries the file name.) */
  method ExportPdfFileName(fw: Orchestration.HiringFramework) returns (r: Response<String>)
    ensures r.HttpError? <==> fw.latestLevel1.None?
    ensures r.HttpError? ==> (r.status == 400 &&
      r.detail == "No evaluation data available. Please complete at least Level 1 evaluation.")
    ensures r.Success? ==> fw.latestLevel1.Some? && r.data == PdfFileName(fw.latestLevel1.value.candidateName)
    ensures r.Success? ==> forall c :: c in r.data ==> FileNameChar(c) || c == '.'
  {
    if fw.latestLevel1.None? {
      return HttpError(400, "No evaluation data available. Please complete at least Level 1 evaluation.");
    }
    var name := fw.latestLevel1.value.candidateName;
    PdfFileNameSafe(name);
    r := Success(PdfFileName(name));
  }

  /** `GET /api/v1/evaluations/report`: the report and the number of records.
      The endpoint does not catch the KeyError the report raises on a Level 2
      or verdict record, so such a list is answered with a bare 500. */
  method GetEvaluationReport(fw: Orchestration.HiringFramework) returns (r: Response<(Orchestration.Report, nat)>)
    ensures r.HttpError? <==> Orchestration.ReportOf(fw.evaluationResults).MissingKey?
    ensures r.HttpError? ==> r.status == 500 && r.detail == "Internal Server Error"
    ensures r.HttpError? ==> exists k :: 0 <= k < |fw.evaluationResults| && !fw.evaluationResults[k].Level1Record?
    ensures r.Success? ==> r.data.0 == Orchestration.ReportOf(fw.evaluationResults) && r.data.1 == |fw.evaluationResults|
    ensures r.Success? ==> (r.data.0 == Orchestration.NoEvaluations <==> r.data.1 == 0)
    ensures r.Success? ==> forall k :: 0 <= k < |fw.evaluationResults| ==> fw.evaluationResults[k].Level1Record?
  {
    var report := fw.GetEvaluationReport();
    Orchestration.ReportEmpty(fw.evaluationResults);
    Orchestration.ReportFromListing(fw.evaluationResults, 0);
    Orchestration.ReportFromMissing(fw.evaluationResults, 0);
    if report.MissingKey? {
      return HttpError(500, "Internal Server Error");
    }
    r := Success((report, |fw.evaluationResults|));
  }

  /** `POST /api/v1/reset` */
  method ResetFramework(fw: Orchestration.HiringFramework)
    modifies fw
    ensures fw.Valid() && fw.evaluationResults == [] && fw.currentJd.None? && fw.currentRubric.None?
    ensures fw.latestLevel1.None? && fw.latestLevel2.None? && fw.latestLevel3.None? && fw.latestFinalVerdict.None?
  {
    fw.Reset();
  }
}
