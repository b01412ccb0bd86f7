/** The deterministic parts of the resume evaluator (Level 1): reading the
    score out of the evaluator's reply, finding a GitHub handle in the resume,
    cleaning the name the extraction model returned, and assembling the
    resume and Level 1 records.  Every model reply is an input string. */
module ResumeEvaluator {

  import opened Results
  import opened Text
  import opened Patterns
  import Configuration

  // ---------------------------------------------------------------------
  // Score

  // `SCORE:\s*(\d+)\s*/\s*10`, ignoring case
  function LabelledScoreAt(s: String, i: nat): Option<nat> { LabelledFractionAt(s, i, "score:", true) }

  // `(\d+)\s*/\s*10`
  function BareScoreAt(s: String, i: nat): Option<nat> { FractionAt(s, i, true) }

  /** The first labelled score in the reply, else the first bare fraction of
      ten, else no score.  The value is not clamped to 0..10. */
  function ExtractScore(text: String): Option<nat>
  {
    var labelled := Search(text, LabelledScoreAt);
    if labelled.Some? then labelled else Search(text, BareScoreAt)
  }

  /** No score is found exactly when the reply has no fraction of ten at all. */
  lemma ExtractScoreNone(text: String)
    ensures ExtractScore(text).None? <==> forall p :: 0 <= p <= |text| ==> BareScoreAt(text, p).None?
  {
    var labelled := Search(text, LabelledScoreAt);
    if labelled.Some? {
      var p :| 0 <= p <= |text| && LabelledScoreAt(text, p) == labelled;
      var q := LabelledGivesBare(text, p);
    }
  }

  /** Behind a labelled score there is a bare fraction of ten. */
  lemma LabelledGivesBare(text: String, p: nat) returns (q: nat)
    requires LabelledScoreAt(text, p).Some?
    ensures q <= |text| && BareScoreAt(text, q) == LabelledScoreAt(text, p)
  {
    assert |"score:"| == 6;
    q := p + 6 + SpaceRun(text, p + 6);
    assert LabelledScoreAt(text, p) == FractionAt(text, q, true);
  }

  /** The first labelled score wins, whatever bare fractions come before it. */
  lemma LabelledScoreWins(text: String, p: nat)
    requires LabelledScoreAt(text, p).Some?
    requires forall q :: 0 <= q < p ==> LabelledScoreAt(text, q).None?
    ensures ExtractScore(text) == LabelledScoreAt(text, p)
  {
    var f := FindFrom(text, 0, LabelledScoreAt);
    assert p <= |text|;
    assert f.Some? && f.value == p;
  }

  /** A reply with no labelled score yields the first bare fraction. */
  lemma BareScoreFallback(text: String, p: nat)
    requires forall q :: 0 <= q <= |text| ==> LabelledScoreAt(text, q).None?
    requires BareScoreAt(text, p).Some?
    requires forall q :: 0 <= q < p ==> BareScoreAt(text, q).None?
    ensures ExtractScore(text) == BareScoreAt(text, p)
  {
    var f := FindFrom(text, 0, BareScoreAt);
    assert p <= |text|;
    assert f.Some? && f.value == p;
  }

  // ---------------------------------------------------------------------
  // GitHub handle in the resume

  // `@([a-zA-Z0-9-]+)\s*\(github\)`
  function HandleBeforeTagAt(s: String, i: nat): (r: Option<String>)
    ensures r.Some? ==> r == NameAt(s, i + 1)
  {
    if i < |s| && s[i] == '@' then
      match NameAt(s, i + 1)
      case Some(n) =>
        var j := i + 1 + |n|;
        if StartsAtCI(s, j + SpaceRun(s, j), "(github)") then Some(n) else None
      case None => None
    else None
  }

  // `github:\s*([a-zA-Z0-9-]+)`
  function GithubColonAt(s: String, i: nat): (r: Option<String>)
    ensures r.Some? ==> r == NameAt(s, i + 7 + SpaceRun(s, i + 7))
  {
    if StartsAtCI(s, i, "github:") then NameAt(s, i + 7 + SpaceRun(s, i + 7)) else None
  }

  // `github\s+username:\s*([a-zA-Z0-9-]+)`
  function GithubUsernameAt(s: String, i: nat): (r: Option<String>)
    ensures r.Some? ==> exists j: nat :: r == NameAt(s, j)
  {
    var w := SpaceRun(s, i + 6);
    if StartsAtCI(s, i, "github") && w > 0 && StartsAtCI(s, i + 6 + w, "username:") then
      var j := i + 6 + w + 9;
      NameAt(s, j + SpaceRun(s, j))
    else None
  }

  /** The GitHub handle mentioned in a resume: the four patterns are tried in
      order on the lower-cased text, and the first one found gives the handle. */
  function ExtractGithubUrl(text: String): (r: String)
    ensures r == "" <==>
      Search(Lower(text), ProfilePathAt).None? && Search(Lower(text), HandleBeforeTagAt).None? &&
      Search(Lower(text), GithubColonAt).None? && Search(Lower(text), GithubUsernameAt).None?
    ensures forall k :: 0 <= k < |r| ==> IsNameChar(r[k]) && !IsUpper(r[k])
    ensures Search(Lower(text), ProfilePathAt).Some? ==> r == Search(Lower(text), ProfilePathAt).value
    ensures Search(Lower(text), ProfilePathAt).None? && Search(Lower(text), HandleBeforeTagAt).Some? ==>
              r == Search(Lower(text), HandleBeforeTagAt).value
    ensures Search(Lower(text), ProfilePathAt).None? && Search(Lower(text), HandleBeforeTagAt).None? &&
            Search(Lower(text), GithubColonAt).Some? ==>
              r == Search(Lower(text), GithubColonAt).value
    ensures Search(Lower(text), ProfilePathAt).None? && Search(Lower(text), HandleBeforeTagAt).None? &&
            Search(Lower(text), GithubColonAt).None? && Search(Lower(text), GithubUsernameAt).Some? ==>
              r == Search(Lower(text), GithubUsernameAt).value
  {
    var low := Lower(text);
    var r1 := Search(low, ProfilePathAt);
    var r2 := Search(low, HandleBeforeTagAt);
    var r3 := Search(low, GithubColonAt);
    var r4 := Search(low, GithubUsernameAt);
    var r := if r1.Some? then r1.value else if r2.Some? then r2.value else if r3.Some? then r3.value
             else if r4.Some? then r4.value else "";
    HandlePatternsCaptureNames();
    HandleChars(low, r1, ProfilePathAt);
    HandleChars(low, r2, HandleBeforeTagAt);
    HandleChars(low, r3, GithubColonAt);
    HandleChars(low, r4, GithubUsernameAt);
    r
  }

  /** The handle patterns in the order they are tried */
  const HandlePatterns: seq<(String, nat) -> Option<String>> :=
    [ProfilePathAt, HandleBeforeTagAt, GithubColonAt, GithubUsernameAt]

  /** The handle is the capture of the first pattern that occurs anywhere, taken
      at the leftmost position where it occurs; earlier patterns never match. */
  lemma HandleFromFirstPattern(text: String, n: nat, p: nat)
    requires n < |HandlePatterns|
    requires forall j, q :: 0 <= j < n && 0 <= q <= |text| ==> HandlePatterns[j](Lower(text), q).None?
    requires p <= |text| && HandlePatterns[n](Lower(text), p).Some?
    requires forall q :: 0 <= q < p ==> HandlePatterns[n](Lower(text), q).None?
    ensures ExtractGithubUrl(text) == HandlePatterns[n](Lower(text), p).value
  {
    var low := Lower(text);
    assert HandlePatterns[0] == ProfilePathAt && HandlePatterns[1] == HandleBeforeTagAt;
    assert HandlePatterns[2] == GithubColonAt && HandlePatterns[3] == GithubUsernameAt;
    if n > 0 {
      NoMatchNoSearch(low, ProfilePathAt);
    }
    if n > 1 {
      NoMatchNoSearch(low, HandleBeforeTagAt);
    }
    if n > 2 {
      NoMatchNoSearch(low, GithubColonAt);
    }
    SearchLeftmost(low, HandlePatterns[n], p);
  }

  /** A pattern that matches at no position is not found. */
  lemma NoMatchNoSearch(low: String, m: (String, nat) -> Option<String>)
    requires forall q :: 0 <= q <= |low| ==> m(low, q).None?
    ensures Search(low, m).None?
  {
  }

  /** A matcher whose every capture is a name captured at some position */
  ghost predicate CapturesName(m: (String, nat) -> Option<String>)
  {
    forall s: String, i: nat :: m(s, i).Some? ==> exists j: nat :: m(s, i) == NameAt(s, j)
  }

  /** Each of the four handle patterns captures a name. */
  lemma HandlePatternsCaptureNames()
    ensures CapturesName(ProfilePathAt) && CapturesName(HandleBeforeTagAt)
    ensures CapturesName(GithubColonAt) && CapturesName(GithubUsernameAt)
  {
    forall s: String, i: nat | ProfilePathAt(s, i).Some? ensures exists j: nat :: ProfilePathAt(s, i) == NameAt(s, j) {
      assert ProfilePathAt(s, i) == NameAt(s, i + 11);
    }
    forall s: String, i: nat | HandleBeforeTagAt(s, i).Some? ensures exists j: nat :: HandleBeforeTagAt(s, i) == NameAt(s, j) {
      assert HandleBeforeTagAt(s, i) == NameAt(s, i + 1);
    }
    forall s: String, i: nat | GithubColonAt(s, i).Some? ensures exists j: nat :: GithubColonAt(s, i) == NameAt(s, j) {
      assert GithubColonAt(s, i) == NameAt(s, i + 7 + SpaceRun(s, i + 7));
    }
  }

  /** A handle found in a lower-case text is a non-empty lower-case name. */
  lemma {:induction false} HandleChars(low: String, r: Option<String>, m: (String, nat) -> Option<String>)
    requires forall k :: 0 <= k < |low| ==> !IsUpper(low[k])
    requires r == Search(low, m) && CapturesName(m)
    ensures r.Some? ==> |r.value| > 0 && forall k :: 0 <= k < |r.value| ==> IsNameChar(r.value[k]) && !IsUpper(r.value[k])
  {
    if r.Some? {
      var p :| 0 <= p <= |low| && m(low, p) == r;
      var j: nat :| m(low, p) == NameAt(low, j);
      NameInLowerText(low, j);
    }
  }

  /** A name captured from a lower-case text is lower-case. */
  lemma NameInLowerText(low: String, j: nat)
    requires forall k :: 0 <= k < |low| ==> !IsUpper(low[k])
    requires NameAt(low, j).Some?
    ensures forall k :: 0 <= k < |NameAt(low, j).value| ==> !IsUpper(NameAt(low, j).value[k])
  {
    var n := NameAt(low, j).value;
    assert forall k :: 0 <= k < |n| ==> n[k] == low[j + k];
  }

  /** A resume mentioning its profile URL yields the lower-cased user name. */
  lemma ProfileUrlHandle(name: String)
    requires |name| > 0 && forall k :: 0 <= k < |name| ==> IsNameChar(name[k])
    ensures ExtractGithubUrl("github.com/" + name) == Lower(name)
  {
    ProfilePathAtStart(name);
  }

  /** The profile path at the very start of the text is what the search finds. */
  lemma ProfilePathAtStart(name: String)
    requires |name| > 0 && forall k :: 0 <= k < |name| ==> IsNameChar(name[k])
    ensures Search(Lower("github.com/" + name), ProfilePathAt) == Some(Lower(name))
  {
    var low := Lower("github.com/" + name);
    LowerProfilePath(name);
    PrefixStartsAtCI("github.com/", Lower(name));
    RunToEnd(low, 11, IsNameChar);
    assert low[11..11 + (|low| - 11)] == low[11..] == Lower(name);
    assert NameAt(low, 11) == Some(Lower(name));
    assert ProfilePathAt(low, 0) == Some(Lower(name));
    SearchLeftmost(low, ProfilePathAt, 0);
  }

  /** A lower-case prefix occurs, ignoring case, at the start of the text. */
  lemma PrefixStartsAtCI(p: String, rest: String)
    requires forall k :: 0 <= k < |p| ==> LowerChar(p[k]) == p[k]
    ensures StartsAtCI(p + rest, 0, p)
  {
    assert forall k :: 0 <= k < |p| ==> (p + rest)[k] == p[k];
  }

  /** Lower-casing keeps the path's prefix and the name's characters name characters. */
  lemma LowerProfilePath(name: String)
    requires forall k :: 0 <= k < |name| ==> IsNameChar(name[k])
    ensures Lower("github.com/" + name) == "github.com/" + Lower(name)
    ensures forall k :: 11 <= k < |Lower("github.com/" + name)| ==> IsNameChar(Lower("github.com/" + name)[k])
  {
    var low := Lower("github.com/" + name);
    assert low == "github.com/" + Lower(name);
    assert forall k :: 11 <= k < |low| ==> low[k] == LowerChar(name[k - 11]);
  }

  /** A run over characters that all satisfy p reaches the end of the text. */
  lemma {:induction false} RunToEnd(s: String, i: nat, p: char -> bool)
    requires i <= |s|
    requires forall k :: i <= k < |s| ==> p(s[k])
    decreases |s| - i
    ensures RunLength(s, i, p) == |s| - i
  {
    if i < |s| {
      RunToEnd(s, i + 1, p);
    }
  }

  // ---------------------------------------------------------------------
  // Candidate name returned by the extraction model

  const LocationIndicators: seq<String> := ["india", "usa", "uk", "state", "city", "street", "avenue", "road"]

  const DefaultCandidateName: String := "Candidate"

  predicate IsQuote(c: char) { c == '"' || c == '\'' }

  /** A comma, or any location word anywhere in the lower-cased name */
  predicate LooksLikeLocation(name: String)
  {
    (exists k :: 0 <= k < |LocationIndicators| && Contains(Lower(name), LocationIndicators[k])) || ',' in name
  }

  /** The model's reply (None when the call raised) cleaned into a name: whitespace
      and then quotes are stripped; a location-like or badly sized reply, or one
      reading "candidate" in any case, gives "Candidate"; an all-caps name is
      title-cased. */
  function CleanCandidateName(reply: Option<String>): (r: String)
    ensures r == DefaultCandidateName || (3 <= |r| <= 50 && !LooksLikeLocation(r) && Lower(r) != "candidate")
    ensures reply.None? ==> r == DefaultCandidateName
  {
    match reply
    case None => DefaultCandidateName
    case Some(raw) =>
      var name := TrimEnd(TrimStart(Strip(raw), IsQuote), IsQuote);
      if LooksLikeLocation(name) then DefaultCandidateName
      else if |name| < 3 || |name| > 50 then DefaultCandidateName
      else
        var cased := if IsUpperText(name) then Title(name) else name;
        TitleKeepsLocation(name);
        if |cased| > 0 && Lower(cased) != "candidate" then cased else DefaultCandidateName
  }

  /** Title-casing changes the case of letters only. */
  lemma TitleKeepsLocation(name: String)
    ensures Lower(Title(name)) == Lower(name)
    ensures LooksLikeLocation(Title(name)) <==> LooksLikeLocation(name)
  {
    var t := Title(name);
    assert Lower(t) == Lower(name);
    forall k | 0 <= k < |name|
      ensures t[k] == ',' <==> name[k] == ','
    {
      assert LowerChar(t[k]) == LowerChar(name[k]);
    }
    if ',' in t {
      var k :| 0 <= k < |t| && t[k] == ',';
      assert name[k] == ',';
    }
    if ',' in name {
      var k :| 0 <= k < |name| && name[k] == ',';
      assert t[k] == ',';
    }
  }

  /** The checks of the cleanup, read on the reply itself. */
  lemma CleanCandidateNameRejects(raw: String)
    ensures var name := TrimEnd(TrimStart(Strip(raw), IsQuote), IsQuote);
      (LooksLikeLocation(name) || |name| < 3 || |name| > 50 || Lower(name) == "candidate") ==>
        CleanCandidateName(Some(raw)) == DefaultCandidateName
  {
    var name := TrimEnd(TrimStart(Strip(raw), IsQuote), IsQuote);
    TitleKeepsLocation(name);
  }

  lemma CleanCandidateNameKeeps(raw: String)
    ensures var name := TrimEnd(TrimStart(Strip(raw), IsQuote), IsQuote);
      (!LooksLikeLocation(name) && 3 <= |name| <= 50 && Lower(name) != "candidate") ==>
        CleanCandidateName(Some(raw)) == (if IsUpperText(name) then Title(name) else name)
  {
    var name := TrimEnd(TrimStart(Strip(raw), IsQuote), IsQuote);
    TitleKeepsLocation(name);
  }

  // ---------------------------------------------------------------------
  // Records

  /** What `extract_resume_text` returns (its status is always "extracted"). */
  datatype ResumeInfo = ResumeInfo(rawResume: String, structuredInfo: String, githubUrl: String, candidateName: String)

  /** The resume record: the text as given, the extraction model's reply, the
      handle found in the text and the cleaned name. */
  function ExtractResumeInfo(resumeText: String, structuredReply: String, nameReply: Option<String>): (r: ResumeInfo)
    ensures r.rawResume == resumeText && r.structuredInfo == structuredReply
    ensures r.githubUrl == ExtractGithubUrl(resumeText)
    ensures r.candidateName == CleanCandidateName(nameReply)
  {
    ResumeInfo(resumeText, structuredReply, ExtractGithubUrl(resumeText), CleanCandidateName(nameReply))
  }

  /** The Level 1 record (its status is always "evaluated"). */
  datatype Level1Result = Level1Result(
    level: String, score: Option<nat>, maxScore: nat, evaluation: String, threshold: real,
    passed: bool, githubUrl: String, candidateName: String, rawResume: String, structuredInfo: String)

  /** Level 1: the evaluator's reply is scored and judged against the level-1
      threshold; the resume's handle and name are carried along. */
  function EvaluateLevel1(info: ResumeInfo, reply: String, threshold: real): (r: Level1Result)
    ensures r.level == "L1" && r.maxScore == Configuration.Level1MaxScore && r.threshold == threshold
    ensures r.score == ExtractScore(reply) && r.evaluation == reply
    ensures r.score.None? ==> !r.passed
    ensures r.score.Some? ==> (r.passed <==> r.score.value as real >= threshold)
    ensures r.githubUrl == info.githubUrl && r.candidateName == info.candidateName
    ensures r.rawResume == info.rawResume && r.structuredInfo == info.structuredInfo
  {
    var score := ExtractScore(reply);
    Level1Result("L1", score, Configuration.Level1MaxScore, reply, threshold, Configuration.Passes(score, threshold),
                 info.githubUrl, info.candidateName, info.rawResume, info.structuredInfo)
  }
}
