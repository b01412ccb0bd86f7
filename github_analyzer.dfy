/** The deterministic parts of the GitHub analyzer (Level 2): reading the user
    name out of what the candidate supplied, deciding on the GitHub API's
    answer, reading the score out of the analysis reply, and assembling the
    Level 2 record.  The analysis reply and the API's status code are inputs. */
module GithubAnalyzer {

  import opened Results
  import opened Text
  import opened Patterns
  import Configuration

  // ---------------------------------------------------------------------
  // User name

  predicate IsSlash(c: char) { c == '/' }
  predicate IsAt(c: char) { c == '@' }

  /** The supplied profile reference with surrounding whitespace and then
      trailing slashes removed */
  function Trimmed(url: String): String { TrimEnd(Strip(url), IsSlash) }

  /** A reference naming github.com with a `github.com/<name>` path gives that
      name, case kept; anything else is taken as the user name itself, with
      every '@' removed and whitespace stripped. */
  function ExtractGithubUsername(url: String): (r: String)
    ensures '@' !in r
    ensures Contains(Lower(Trimmed(url)), "github.com") && Search(Trimmed(url), ProfilePathAt).Some? ==>
      |r| > 0 && forall k :: 0 <= k < |r| ==> IsNameChar(r[k])
    // the name after the leftmost "github.com/" (any case), as long as the run of name characters goes
    ensures Contains(Lower(Trimmed(url)), "github.com") && Search(Trimmed(url), ProfilePathAt).Some? ==>
      exists p: nat :: LeftmostProfileName(Trimmed(url), p, r)
    // anything else is the trimmed reference with every '@' removed
    ensures !(Contains(Lower(Trimmed(url)), "github.com") && Search(Trimmed(url), ProfilePathAt).Some?) ==>
      r == Strip(Filter(Trimmed(url), IsAt))
  {
    var u := Trimmed(url);
    var path := Search(u, ProfilePathAt);
    if Contains(Lower(u), "github.com") && path.Some? then
      PathChars(u, path);
      path.value
    else Strip(Filter(u, IsAt))
  }

  lemma PathChars(u: String, path: Option<String>)
    requires path == Search(u, ProfilePathAt) && path.Some?
    ensures |path.value| > 0 && forall k :: 0 <= k < |path.value| ==> IsNameChar(path.value[k])
    ensures '@' !in path.value
    ensures exists p: nat :: LeftmostProfileName(u, p, path.value)
  {
    var p: nat := FindFrom(u, 0, ProfilePathAt).value;
    assert ProfilePathAt(u, p) == path;
    ProfileNameAt(u, p, path.value);
    assert LeftmostProfileName(u, p, path.value);
  }

  /** A profile path at p is "github.com/" followed by a maximal run of name characters. */
  lemma ProfileNameAt(u: String, p: nat, name: String)
    requires ProfilePathAt(u, p) == Some(name)
    ensures StartsAtCI(u, p, "github.com/") && p + 11 + |name| <= |u| && name == u[p + 11..p + 11 + |name|]
    ensures p + 11 + |name| == |u| || !IsNameChar(u[p + 11 + |name|])
    ensures |name| > 0 && forall k :: 0 <= k < |name| ==> IsNameChar(name[k])
    ensures '@' !in name
  {
    assert NameAt(u, p + 11) == Some(name);
    assert forall k :: 0 <= k < |name| ==> name[k] != '@';
  }

  /** `name` is the run of name characters right after a case-insensitive
      "github.com/" at p, and no "github.com/<name>" occurs before p. */
  ghost predicate LeftmostProfileName(u: String, p: nat, name: String)
  {
    p + 11 + |name| <= |u| && StartsAtCI(u, p, "github.com/")
    && name == u[p + 11..p + 11 + |name|]
    && (p + 11 + |name| == |u| || !IsNameChar(u[p + 11 + |name|]))
    && forall q :: 0 <= q < p ==> ProfilePathAt(u, q).None?
  }

  /** No text made of name characters and '@' mentions github.com: it has no '.'. */
  lemma NoDomainInName(s: String)
    requires forall k :: 0 <= k < |s| ==> IsNameChar(s[k]) || IsAt(s[k])
    ensures !Contains(Lower(s), "github.com")
  {
    forall i: nat | i + 10 <= |s|
      ensures !StartsAt(Lower(s), i, "github.com")
    {
      assert Lower(s)[i + 6] != "github.com"[6];
    }
  }

  /** Trailing slashes go, and a text without edge whitespace is otherwise kept. */
  lemma TrimmedSlash(x: String)
    requires |x| > 0 && !IsSpace(x[0]) && !IsSpace(x[|x| - 1]) && !IsSlash(x[|x| - 1])
    ensures Trimmed(x + "/") == x
    ensures Trimmed(x) == x
  {
    var u := x + "/";
    StripNoop(u);
    StripNoop(x);
    assert u[..|u| - 1] == x;
    assert RunLengthBack(u, IsSlash) == 1;
    assert RunLengthBack(x, IsSlash) == 0;
  }

  /** An occurrence in a text is an occurrence in any longer text. */
  lemma StartsAtCIExtend(a: String, b: String, i: nat, p: String)
    requires StartsAtCI(a, i, p)
    ensures StartsAtCI(a + b, i, p)
  {
  }

  /** In "https://github.com/name" the profile path is found at 8 and nowhere before. */
  lemma ProfileFound(name: String)
    requires |name| > 0 && forall k :: 0 <= k < |name| ==> IsNameChar(name[k])
    ensures Search("https://github.com/" + name, ProfilePathAt) == Some(name)
  {
    var prefix := "https://github.com/";
    var x := prefix + name;
    assert StartsAtCI(prefix, 8, "github.com/");
    StartsAtCIExtend(prefix, name, 8, "github.com/");
    forall p | 0 <= p < 8
      ensures ProfilePathAt(x, p).None?
    {
      assert x[p] == prefix[p];
      assert LowerChar(x[p + 0]) != "github.com/"[0];
    }
    RunAll(x, 19);
    assert x[19..] == name;
    SearchLeftmost(x, ProfilePathAt, 8);
  }

  /** "https://github.com/name" names the domain. */
  lemma ProfileDomain(name: String)
    ensures Contains(Lower("https://github.com/" + name), "github.com")
  {
    var prefix := "https://github.com/";
    var x := prefix + name;
    assert StartsAtCI(prefix, 8, "github.com");
    StartsAtCIExtend(prefix, name, 8, "github.com");
    ContainsLower(x, "github.com");
  }

  /** A profile URL with a trailing slash gives back the user name as written. */
  lemma ProfileUrlUsername(name: String)
    requires |name| > 0 && forall k :: 0 <= k < |name| ==> IsNameChar(name[k])
    ensures ExtractGithubUsername("https://github.com/" + name + "/") == name
  {
    var x := "https://github.com/" + name;
    assert x[0] == 'h' && x[|x| - 1] == name[|name| - 1];
    TrimmedSlash(x);
    ProfileFound(name);
    ProfileDomain(name);
  }

  /** Every character from i onwards is a name character, and the run takes them all. */
  lemma RunAll(x: String, i: nat)
    requires i < |x|
    requires forall k :: i <= k < |x| ==> IsNameChar(x[k])
    ensures NameAt(x, i) == Some(x[i..])
  {
    RunToEnd(x, i);
    var n := RunLength(x, i, IsNameChar);
    assert x[i..i + n] == x[i..];
  }

  lemma {:induction false} RunToEnd(x: String, i: nat)
    requires i <= |x|
    requires forall k :: i <= k < |x| ==> IsNameChar(x[k])
    decreases |x| - i
    ensures RunLength(x, i, IsNameChar) == |x| - i
  {
    if i < |x| {
      RunToEnd(x, i + 1);
    }
  }

  /** A handle written as "@name" gives the name. */
  lemma HandleUsername(name: String)
    requires |name| > 0 && forall k :: 0 <= k < |name| ==> IsNameChar(name[k])
    ensures ExtractGithubUsername("@" + name) == name
  {
    AtHandleTrimmed(name);
    AtHandleNoDomain(name);
    AtHandleFiltered(name);
  }

  lemma AtHandleTrimmed(name: String)
    requires |name| > 0 && forall k :: 0 <= k < |name| ==> IsNameChar(name[k])
    ensures Trimmed("@" + name) == "@" + name
  {
    var u := "@" + name;
    assert u[|u| - 1] == name[|name| - 1];
    TrimmedSlash(u);
  }

  lemma AtHandleNoDomain(name: String)
    requires forall k :: 0 <= k < |name| ==> IsNameChar(name[k])
    ensures !Contains(Lower("@" + name), "github.com")
  {
    var u := "@" + name;
    assert forall k :: 1 <= k < |u| ==> u[k] == name[k - 1];
    NoDomainInName(u);
  }

  lemma AtHandleFiltered(name: String)
    requires |name| > 0 && forall k :: 0 <= k < |name| ==> IsNameChar(name[k])
    ensures Strip(Filter("@" + name, IsAt)) == name
  {
    assert IsNameChar(name[0]) && IsNameChar(name[|name| - 1]);
    StripNoop(name);
    KeepAll(name);
    var u := "@" + name;
    assert u[0] == '@' && u[1..] == name;
  }

  lemma {:induction false} KeepAll(s: String)
    requires forall k :: 0 <= k < |s| ==> IsNameChar(s[k])
    ensures Filter(s, IsAt) == s
  {
    if |s| > 0 {
      KeepAll(s[1..]);
      assert s == [s[0]] + s[1..];
    }
  }

  // ---------------------------------------------------------------------
  // Validation against the GitHub API

  /** The API's answer for the user: a status code, or None when the request
      itself failed.  Only 404 rejects the name; every other status (a rate
      limit, a server error) and a failed request let the analysis go on. */
  function ValidateUsername(username: String, status: Option<int>): (r: Outcome<bool>)
    ensures r.Err? <==> status == Some(404)
    ensures r.Ok? ==> r.value
    ensures r.Err? ==> r.error == "GitHub username '" + username + "' does not exist. Please verify the username and try again."
  {
    if status == Some(404) then
      Err("GitHub username '" + username + "' does not exist. Please verify the username and try again.")
    else Ok(true)
  }

  // ---------------------------------------------------------------------
  // Score

  /** The labelled patterns in the order they are tried; `SCORE:`, `Score:`
      and `score:` read the same once case is ignored. */
  const ScorePrefixes: seq<String> := ["score:", "score:", "score:", "total:"]

  // `(\d+)/10`
  function BareScoreAt(s: String, i: nat): Option<nat> { FractionAt(s, i, false) }

  /** The first of the labelled patterns that occurs, and what it reads */
  function FirstLabelled(text: String, prefixes: seq<String>): (r: Option<nat>)
    ensures r.Some? ==> exists q :: 0 <= q <= |text| && BareScoreAt(text, q) == r
  {
    if |prefixes| == 0 then None
    else
      var m := (s: String, i: nat) => LabelledFractionAt(s, i, prefixes[0], false);
      var found := Search(text, m);
      if found.Some? then
        LabelledBehindBare(text, prefixes[0], m, FindFrom(text, 0, m).value);
        found
      else FirstLabelled(text, prefixes[1..])
  }

  /** Where a labelled pattern matches, its "digits/10" part is a bare match. */
  lemma {:induction false} LabelledBehindBare(text: String, prefix: String, m: (String, nat) -> Option<nat>, p: nat)
    requires forall s: String, i: nat :: m(s, i) == LabelledFractionAt(s, i, prefix, false)
    requires p <= |text| && m(text, p).Some?
    ensures exists q :: 0 <= q <= |text| && BareScoreAt(text, q) == m(text, p)
  {
    var q := p + |prefix| + SpaceRun(text, p + |prefix|);
    assert BareScoreAt(text, q) == m(text, p);
  }

  /** The first labelled score, else the first bare "digits/10", else none.
      No spaces are allowed around the slash. */
  function ExtractScore(text: String): Option<nat>
  {
    var labelled := FirstLabelled(text, ScorePrefixes);
    if labelled.Some? then labelled else Search(text, BareScoreAt)
  }

  /** No score is found exactly when the text has no "digits/10" at all. */
  lemma ExtractScoreNone(text: String)
    ensures ExtractScore(text).None? <==> forall p :: 0 <= p <= |text| ==> BareScoreAt(text, p).None?
  {
    var labelled := FirstLabelled(text, ScorePrefixes);
    if labelled.Some? {
      var q :| 0 <= q <= |text| && BareScoreAt(text, q) == labelled;
    }
  }

  /** The first labelled pattern that occurs anywhere gives the score, read at
      its leftmost match. */
  lemma {:induction false} FirstLabelledAt(text: String, prefixes: seq<String>, n: nat, p: nat)
    requires n < |prefixes|
    requires forall j, q :: 0 <= j < n && 0 <= q <= |text| ==> LabelledFractionAt(text, q, prefixes[j], false).None?
    requires p <= |text| && LabelledFractionAt(text, p, prefixes[n], false).Some?
    requires forall q :: 0 <= q < p ==> LabelledFractionAt(text, q, prefixes[n], false).None?
    ensures FirstLabelled(text, prefixes) == LabelledFractionAt(text, p, prefixes[n], false)
  {
    var m := (s: String, i: nat) => LabelledFractionAt(s, i, prefixes[0], false);
    if n == 0 {
      SearchLeftmost(text, m, p);
    } else {
      assert Search(text, m).None? by {
        assert forall q :: 0 <= q <= |text| ==> m(text, q).None?;
      }
      assert forall j :: 0 <= j < n - 1 ==> prefixes[1..][j] == prefixes[j + 1];
      FirstLabelledAt(text, prefixes[1..], n - 1, p);
    }
  }

  /** No labelled pattern occurs, so none is read. */
  lemma {:induction false} FirstLabelledNone(text: String, prefixes: seq<String>)
    requires forall j, q :: 0 <= j < |prefixes| && 0 <= q <= |text| ==> LabelledFractionAt(text, q, prefixes[j], false).None?
    ensures FirstLabelled(text, prefixes).None?
  {
    if |prefixes| > 0 {
      var m := (s: String, i: nat) => LabelledFractionAt(s, i, prefixes[0], false);
      assert Search(text, m).None? by {
        assert forall q :: 0 <= q <= |text| ==> m(text, q).None?;
      }
      assert forall j :: 0 <= j < |prefixes| - 1 ==> prefixes[1..][j] == prefixes[j + 1];
      FirstLabelledNone(text, prefixes[1..]);
    }
  }

  /** A "score:" match wins, whatever bare fractions come before it. */
  lemma LabelledScoreWins(text: String, p: nat)
    requires p <= |text| && LabelledFractionAt(text, p, "score:", false).Some?
    requires forall q :: 0 <= q < p ==> LabelledFractionAt(text, q, "score:", false).None?
    ensures ExtractScore(text) == LabelledFractionAt(text, p, "score:", false)
  {
    FirstLabelledAt(text, ScorePrefixes, 0, p);
  }

  /** With no "score:" match, a "total:" match wins over bare fractions. */
  lemma TotalScoreWins(text: String, p: nat)
    requires forall q :: 0 <= q <= |text| ==> LabelledFractionAt(text, q, "score:", false).None?
    requires p <= |text| && LabelledFractionAt(text, p, "total:", false).Some?
    requires forall q :: 0 <= q < p ==> LabelledFractionAt(text, q, "total:", false).None?
    ensures ExtractScore(text) == LabelledFractionAt(text, p, "total:", false)
  {
    FirstLabelledAt(text, ScorePrefixes, 3, p);
  }

  /** A reply with no labelled score yields its first bare "digits/10". */
  lemma BareScoreFallback(text: String, p: nat)
    requires forall q :: 0 <= q <= |text| ==> LabelledFractionAt(text, q, "score:", false).None?
    requires forall q :: 0 <= q <= |text| ==> LabelledFractionAt(text, q, "total:", false).None?
    requires p <= |text| && BareScoreAt(text, p).Some?
    requires forall q :: 0 <= q < p ==> BareScoreAt(text, q).None?
    ensures ExtractScore(text) == BareScoreAt(text, p)
  {
    FirstLabelledNone(text, ScorePrefixes);
    SearchLeftmost(text, BareScoreAt, p);
  }

  // ---------------------------------------------------------------------
  // Record

  /** The Level 2 record (its status is always "analyzed"); `githubUrl` is the
      reference as the candidate supplied it. */
  datatype Level2Result = Level2Result(
    level: String, score: Option<nat>, maxScore: nat, analysis: String, githubUrl: String,
    threshold: real, passed: bool)

  /** Level 2: the user name is checked against the API's answer, then the
      analysis reply is scored and judged against the level-2 threshold. */
  function AnalyzeGithubProfile(githubUrl: String, status: Option<int>, reply: String, threshold: real): (r: Outcome<Level2Result>)
    ensures r.Err? <==> status == Some(404)
    ensures r.Err? ==> r == Err(ValidateUsername(ExtractGithubUsername(githubUrl), status).error)
    ensures r.Ok? ==> r.value.level == "L2" && r.value.maxScore == Configuration.Level2MaxScore
    ensures r.Ok? ==> r.value.score == ExtractScore(reply) && r.value.analysis == reply
    ensures r.Ok? ==> r.value.githubUrl == githubUrl && r.value.threshold == threshold
    ensures r.Ok? && r.value.score.None? ==> !r.value.passed
    ensures r.Ok? && r.value.score.Some? ==> (r.value.passed <==> r.value.score.value as real >= threshold)
  {
    match ValidateUsername(ExtractGithubUsername(githubUrl), status)
    case Err(e) => Err(e)
    case Ok(_) =>
      var score := ExtractScore(reply);
      Ok(Level2Result("L2", score, Configuration.Level2MaxScore, reply, githubUrl, threshold,
                      Configuration.Passes(score, threshold)))
  }
}
