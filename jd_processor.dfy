/** The deterministic parts of the JD processor: the records it returns for
    the job description, the generated rubric and the refined rubric, and the
    cleanup that cuts the model's preamble and code fences from a generated
    rubric. */
module JdProcessor {

  import opened Results
  import opened Text

  // ---------------------------------------------------------------------
  // Records

  /** What `extract_jd_requirements` returns (its status is always "extracted"). */
  datatype JdInfo = JdInfo(rawJd: String, extractedInfo: String)

  /** What `generate_rubric` returns (its status is always "rubric_generated"). */
  datatype RubricData = RubricData(rubric: String, jdInfo: JdInfo)

  /** What `refine_rubric` returns (its status is always "rubric_refined"). */
  datatype RefinedRubric = RefinedRubric(rubric: String, appliedFeedback: String)

  /** The JD record keeps the text as given beside the extraction model's reply. */
  function ExtractJdRequirements(jdText: String, reply: String): (r: JdInfo)
    ensures r.rawJd == jdText && r.extractedInfo == reply
  {
    JdInfo(jdText, reply)
  }

  /** The rubric record holds the cleaned reply and the JD it was made for. */
  function GenerateRubric(jdInfo: JdInfo, reply: String): (r: RubricData)
    ensures r.rubric == CleanCodeBlocks(reply) && r.jdInfo == jdInfo
  {
    RubricData(CleanCodeBlocks(reply), jdInfo)
  }

  /** The refined rubric is the model's reply as it is (no cleanup), and the
      feedback is echoed back. */
  function RefineRubric(currentRubric: String, feedback: String, reply: String): (r: RefinedRubric)
    ensures r.rubric == reply && r.appliedFeedback == feedback
  {
    RefinedRubric(reply, feedback)
  }

  // ---------------------------------------------------------------------
  // Where the rubric starts

  /** `^` under MULTILINE: the start of the text or just after a newline */
  predicate LineStart(s: String, g: nat) { g == 0 || (g <= |s| && s[g - 1] == '\n') }

  // `#{1,3}\s*LEVEL\s+1` at g, ignoring case
  predicate LevelHeadingAt(s: String, g: nat)
  {
    var h := RunLength(s, g, c => c == '#');
    var j := g + h + SpaceRun(s, g + h);
    var w := SpaceRun(s, j + 5);
    1 <= h <= 3 && StartsAtCI(s, j, "level") && w > 0 && StartsAt(s, j + 5 + w, "1")
  }

  // `LEVEL\s+1\s+EVALUATION` at g, ignoring case
  predicate LevelEvaluationAt(s: String, g: nat)
  {
    var w1 := SpaceRun(s, g + 5);
    var w2 := SpaceRun(s, g + 6 + w1);
    StartsAtCI(s, g, "level") && w1 > 0 && StartsAt(s, g + 5 + w1, "1") && w2 > 0
    && StartsAtCI(s, g + 6 + w1 + w2, "evaluation")
  }

  // `#{1,3}.*RUBRIC` at g, ignoring case, '.' matching newlines too
  predicate RubricHeadingAt(s: String, g: nat)
  {
    g < |s| && s[g] == '#' && ContainsCI(s[g + 1..], "rubric")
  }

  // The three patterns `(?:^|\n)(P.*)`: a search for them yields the text from
  // the first line start where P matches (a match found through the newline
  // alternative starts its group just after that newline), so each is read as
  // a search over line starts.
  function LevelHeadingLineAt(s: String, g: nat): Option<nat>
  {
    if LineStart(s, g) && LevelHeadingAt(s, g) then Some(g) else None
  }

  function LevelEvaluationLineAt(s: String, g: nat): Option<nat>
  {
    if LineStart(s, g) && LevelEvaluationAt(s, g) then Some(g) else None
  }

  function RubricHeadingLineAt(s: String, g: nat): Option<nat>
  {
    if LineStart(s, g) && RubricHeadingAt(s, g) then Some(g) else None
  }

  /** The text from the first line that starts a level-1 heading, failing that
      from the first "LEVEL 1 EVALUATION" line, failing that from the first
      heading that mentions the rubric; the whole text when none is found. */
  function DropPreamble(text: String): (r: String)
    ensures exists g :: 0 <= g <= |text| && r == text[g..]
  {
    var f1 := FindFrom(text, 0, LevelHeadingLineAt);
    var f2 := FindFrom(text, 0, LevelEvaluationLineAt);
    var f3 := FindFrom(text, 0, RubricHeadingLineAt);
    if f1.Some? then text[f1.value..]
    else if f2.Some? then text[f2.value..]
    else if f3.Some? then text[f3.value..]
    else assert text == text[0..]; text
  }

  /** The first level-1 heading line wins over everything. */
  lemma PreambleLevelHeading(text: String, g: nat)
    requires g <= |text| && LineStart(text, g) && LevelHeadingAt(text, g)
    requires forall q :: 0 <= q < g ==> LevelHeadingLineAt(text, q).None?
    ensures DropPreamble(text) == text[g..]
  {
    SearchLeftmost(text, LevelHeadingLineAt, g);
  }

  /** With no level-1 heading line, the first "LEVEL 1 EVALUATION" line is used. */
  lemma PreambleLevelEvaluation(text: String, g: nat)
    requires forall q :: 0 <= q <= |text| ==> LevelHeadingLineAt(text, q).None?
    requires g <= |text| && LineStart(text, g) && LevelEvaluationAt(text, g)
    requires forall q :: 0 <= q < g ==> LevelEvaluationLineAt(text, q).None?
    ensures DropPreamble(text) == text[g..]
  {
    SearchLeftmost(text, LevelEvaluationLineAt, g);
  }

  /** With neither, the first heading line mentioning the rubric is used. */
  lemma PreambleRubricHeading(text: String, g: nat)
    requires forall q :: 0 <= q <= |text| ==> LevelHeadingLineAt(text, q).None? && LevelEvaluationLineAt(text, q).None?
    requires g <= |text| && LineStart(text, g) && RubricHeadingAt(text, g)
    requires forall q :: 0 <= q < g ==> RubricHeadingLineAt(text, q).None?
    ensures DropPreamble(text) == text[g..]
  {
    SearchLeftmost(text, RubricHeadingLineAt, g);
  }

  /** With none of the three patterns anywhere, the text is kept whole. */
  lemma DropPreambleNone(text: String)
    requires forall q :: 0 <= q <= |text| ==>
      LevelHeadingLineAt(text, q).None? && LevelEvaluationLineAt(text, q).None? && RubricHeadingLineAt(text, q).None?
    ensures DropPreamble(text) == text
  {
  }

  // ---------------------------------------------------------------------
  // Code fences

  /** The last newline in s[a..b] */
  function LastNewline(s: String, a: nat, b: nat): (r: Option<nat>)
    requires b <= |s|
    decreases b
    ensures r.Some? ==> a <= r.value < b && s[r.value] == '\n' && forall e :: r.value < e < b ==> s[e] != '\n'
    ensures r.None? ==> forall e :: a <= e < b ==> s[e] != '\n'
  {
    if b <= a then None
    else if s[b - 1] == '\n' then Some(b - 1)
    else LastNewline(s, a, b - 1)
  }

  // `` ```[\w]*\s*\n `` at i: removed up to and including the last newline of
  // the blank run after the word (the engine gives back blanks until it sees
  // a newline)
  function FenceOpenerAt(s: String, i: nat): (r: Option<(nat, String)>)
    ensures r.Some? ==> StartsAt(s, i, "```") && i < r.value.0 <= |s| && r.value.1 == []
  {
    if StartsAt(s, i, "```") then
      var j := i + 3 + RunLength(s, i + 3, IsWordChar);
      match LastNewline(s, j, j + SpaceRun(s, j))
      case Some(e) => Some((e + 1, []))
      case None => None
    else None
  }

  // The same pattern anchored at a line start (`^` under MULTILINE)
  function LineFenceOpenerAt(s: String, i: nat): (r: Option<(nat, String)>)
    ensures r.Some? ==> StartsAt(s, i, "```") && i < r.value.0 <= |s| && r.value.1 == []
  {
    if LineStart(s, i) then FenceOpenerAt(s, i) else None
  }

  // `` \n\s*```\s*$ `` at i under MULTILINE: the match ends at the last place
  // in the blank run after the ticks where `$` holds, the end of the text or
  // a newline
  function FenceCloserAt(s: String, i: nat): (r: Option<(nat, String)>)
    ensures r.Some? ==> i < |s| && s[i] == '\n' && i < r.value.0 <= |s| && r.value.1 == []
  {
    if i < |s| && s[i] == '\n' then
      var j := i + 1 + SpaceRun(s, i + 1);
      if StartsAt(s, j, "```") then
        var k := j + 3;
        var w := SpaceRun(s, k);
        if k + w == |s| then Some((|s|, []))
        else match LastNewline(s, k, k + w)
          case Some(q) => Some((q, []))
          case None => None
      else None
    else None
  }

  // `` \n``` `` at i
  function NewlineFenceAt(s: String, i: nat): (r: Option<(nat, String)>)
    ensures r.Some? ==> StartsAt(s, i, "\n```") && r.value == (i + 4, [])
  {
    if StartsAt(s, i, "\n```") then Some((i + 4, [])) else None
  }

  /** The generated rubric cleaned: the preamble cut, fence lines at line
      starts removed, a closing fence at a line end removed, any remaining
      fence opener and newline-fence removed, and the result stripped. */
  function CleanCodeBlocks(text: String): (r: String)
    ensures |r| == 0 || (!IsSpace(r[0]) && !IsSpace(r[|r| - 1]))
  {
    var body := DropPreamble(text);
    var t1 := Sub(Strip(body), LineFenceOpenerAt);
    var t2 := Sub(Strip(t1), FenceCloserAt);
    var t3 := Sub(t2, FenceOpenerAt);
    var t4 := Sub(t3, NewlineFenceAt);
    Strip(t4)
  }

  lemma StartsAtChar(s: String, q: nat, p: String, k: nat)
    requires StartsAt(s, q, p) && k < |p|
    ensures s[q + k] == p[k] && p[k] in s
  {
  }

  /** A text without backticks has no tick run anywhere. */
  lemma NoTicksAt(s: String, q: nat)
    requires '`' !in s
    ensures !StartsAt(s, q, "```") && !StartsAt(s, q, "\n```")
  {
    if StartsAt(s, q, "```") {
      StartsAtChar(s, q, "```", 0);
    }
    if StartsAt(s, q, "\n```") {
      StartsAtChar(s, q, "\n```", 1);
    }
  }

  /** A text without backticks holds no fence. */
  lemma NoTicksNoFence(s: String)
    requires '`' !in s
    ensures forall q :: 0 <= q <= |s| ==> LineFenceOpenerAt(s, q).None? && FenceOpenerAt(s, q).None?
    ensures forall q :: 0 <= q <= |s| ==> FenceCloserAt(s, q).None? && NewlineFenceAt(s, q).None?
  {
    forall q | 0 <= q <= |s|
      ensures LineFenceOpenerAt(s, q).None? && FenceOpenerAt(s, q).None?
      ensures FenceCloserAt(s, q).None? && NewlineFenceAt(s, q).None?
    {
      NoTicksAt(s, q);
      NoTicksAt(s, q + 1 + SpaceRun(s, q + 1));
    }
  }

  /** A reply without backticks loses only its preamble and edge whitespace. */
  lemma CleanWithoutFences(text: String)
    requires '`' !in text
    ensures CleanCodeBlocks(text) == Strip(DropPreamble(text))
  {
    var body := DropPreamble(text);
    var sb := Strip(body);
    assert '`' !in sb by {
      var g :| 0 <= g <= |text| && body == text[g..];
      assert forall x :: x in body ==> x in text;
    }
    NoTicksNoFence(sb);
    SubNone(sb, LineFenceOpenerAt);
    StripIdempotent(body);
    SubNone(sb, FenceCloserAt);
    SubNone(sb, FenceOpenerAt);
    SubNone(sb, NewlineFenceAt);
    StripIdempotent(body);
  }

  /** A rubric the model wrapped in a fence: "```lang", a newline, the rubric
      body and a closing "```" on its own line. */
  function Fenced(lang: String, body: String): String
  {
    "```" + lang + "\n" + body + "\n```"
  }

  /** A body as the model writes it inside a fence: non-empty, no edge
      whitespace, no backticks. */
  predicate PlainBody(body: String)
  {
    |body| > 0 && !IsSpace(body[0]) && !IsSpace(body[|body| - 1]) && '`' !in body
  }

  /** Ticks that only end the text open no fence: no newline follows them. */
  lemma OnlyClosingTicks(s: String, from: nat)
    requires |s| >= 3 && s[|s| - 3..] == "```"
    requires forall q :: from <= q < |s| - 3 ==> s[q] != '`'
    ensures forall q :: from <= q < |s| ==> LineFenceOpenerAt(s, q).None?
  {
    forall q | from <= q < |s|
      ensures LineFenceOpenerAt(s, q).None?
    {
      if q < |s| - 3 {
        assert !StartsAt(s, q, "```") by {
          if StartsAt(s, q, "```") {
            StartsAtChar(s, q, "```", 0);
          }
        }
      } else if q == |s| - 3 {
        assert RunLength(s, |s|, IsWordChar) == 0;
        assert SpaceRun(s, |s|) == 0;
      }
    }
  }

  /** The fence line of a fenced rubric is an opener ending after its newline. */
  lemma OpenerAtStart(lang: String, body: String)
    requires forall k :: 0 <= k < |lang| ==> IsWordChar(lang[k])
    requires PlainBody(body)
    ensures LineFenceOpenerAt(Fenced(lang, body), 0) == Some(((4 + |lang|) as nat, []))
  {
    var w := Fenced(lang, body);
    var j := 3 + |lang|;
    assert w[..3] == "```" && w[3..j] == lang && w[j] == '\n' && w[j + 1] == body[0];
    assert forall k :: 3 <= k < j ==> w[k] == lang[k - 3];
    OpenerOnFenceLine(w, j);
  }

  /** Ticks, a word and a newline followed by a non-blank character open a
      fence that ends just after the newline. */
  lemma OpenerOnFenceLine(w: String, j: nat)
    requires 3 <= j && j + 1 < |w| && w[0] == '`' && w[1] == '`' && w[2] == '`'
    requires forall k :: 3 <= k < j ==> IsWordChar(w[k])
    requires w[j] == '\n' && !IsSpace(w[j + 1])
    ensures LineFenceOpenerAt(w, 0) == Some(((j + 1) as nat, []))
  {
    assert StartsAt(w, 0, "```");
    RunLengthExact(w, 3, j - 3, IsWordChar);
    RunLengthExact(w, j, 1, IsSpace);
    assert LastNewline(w, j, j + 1) == Some(j);
  }

  /** The opening fence line goes, and nothing else is touched. */
  lemma OpenerRemoved(lang: String, body: String)
    requires forall k :: 0 <= k < |lang| ==> IsWordChar(lang[k])
    requires PlainBody(body)
    ensures Sub(Fenced(lang, body), LineFenceOpenerAt) == body + "\n```"
  {
    var w := Fenced(lang, body);
    var e := 4 + |lang|;
    assert w[e..] == body + "\n```";
    OpenerAtStart(lang, body);
    SubFromLeftmost(w, 0, LineFenceOpenerAt, 0);
    assert forall q :: e <= q < |w| - 3 ==> w[q] != '`' by {
      forall q | e <= q < |w| - 3
        ensures w[q] != '`'
      {
        assert w[q] == (body + "\n```")[q - e];
        if q - e < |body| {
          assert w[q] == body[q - e];
        }
      }
    }
    OnlyClosingTicks(w, e);
    SubFromNoMatch(w, e, LineFenceOpenerAt);
  }

  /** The closing "\n```" at the very end goes, and nothing else is touched. */
  lemma CloserRemoved(body: String)
    requires PlainBody(body)
    ensures Sub(body + "\n```", FenceCloserAt) == body
  {
    var t := body + "\n```";
    var n := |body|;
    assert t[..n] == body && t[n] == '\n' && t[n + 1..] == "```";
    RunLengthExact(t, n + 1, 0, IsSpace);
    assert StartsAt(t, n + 1, "```");
    assert SpaceRun(t, |t|) == 0;
    assert FenceCloserAt(t, n) == Some((|t| as nat, []));
    forall q | 0 <= q < n
      ensures FenceCloserAt(t, q).None?
    {
      if t[q] == '\n' {
        var r := SpaceRun(t, q + 1);
        assert q + 1 + r < n;
        assert t[q + 1 + r] == body[q + 1 + r];
        NoTicksAt(body, q + 1 + r);
        assert !StartsAt(t, q + 1 + r, "```");
      }
    }
    SubFromLeftmost(t, 0, FenceCloserAt, n);
    assert t[0..n] == body;
  }

  /** A body followed by a closing fence line holds no opener. */
  lemma NoOpenerBeforeCloser(body: String)
    requires PlainBody(body)
    ensures Sub(body + "\n```", LineFenceOpenerAt) == body + "\n```"
  {
    var t1 := body + "\n```";
    assert forall q :: 0 <= q < |t1| - 3 ==> t1[q] != '`' by {
      forall q | 0 <= q < |t1| - 3
        ensures t1[q] != '`'
      {
        if q < |body| {
          assert t1[q] == body[q];
        }
      }
    }
    OnlyClosingTicks(t1, 0);
    SubFromNoMatch(t1, 0, LineFenceOpenerAt);
  }

  /** The steps after the opener removal, on a body followed by its closing fence. */
  lemma AfterOpener(body: String)
    requires PlainBody(body)
    ensures var t2 := Sub(Strip(body + "\n```"), FenceCloserAt);
      Strip(Sub(Sub(t2, FenceOpenerAt), NewlineFenceAt)) == body
  {
    var t1 := body + "\n```";
    StripNoop(t1);
    assert Strip(t1) == t1;
    CloserRemoved(body);
    assert Sub(Strip(t1), FenceCloserAt) == body;
    BodyUntouched(body);
  }

  /** The last steps leave a plain body as it is. */
  lemma BodyUntouched(body: String)
    requires PlainBody(body)
    ensures Strip(Sub(Sub(body, FenceOpenerAt), NewlineFenceAt)) == body
  {
    NoTicksNoFence(body);
    SubNone(body, FenceOpenerAt);
    SubNone(body, NewlineFenceAt);
    StripNoop(body);
  }

  /** Whatever preamble precedes it, a rubric the model left as
      "body\n```" once the preamble is cut comes out as the body. */
  lemma ClosingFenceRemoved(text: String, body: String)
    requires PlainBody(body)
    requires DropPreamble(text) == body + "\n```"
    ensures CleanCodeBlocks(text) == body
  {
    var t1 := body + "\n```";
    StripNoop(t1);
    NoOpenerBeforeCloser(body);
    assert Sub(Strip(DropPreamble(text)), LineFenceOpenerAt) == t1;
    AfterOpener(body);
  }

  /** A rubric wrapped whole in a fence comes out as its body, as long as the
      preamble step keeps the whole reply. */
  lemma FencedRubricUnwrapped(lang: String, body: String)
    requires forall k :: 0 <= k < |lang| ==> IsWordChar(lang[k])
    requires PlainBody(body)
    requires DropPreamble(Fenced(lang, body)) == Fenced(lang, body)
    ensures CleanCodeBlocks(Fenced(lang, body)) == body
  {
    var w := Fenced(lang, body);
    StripNoop(w);
    OpenerRemoved(lang, body);
    assert Sub(Strip(DropPreamble(w)), LineFenceOpenerAt) == body + "\n```";
    AfterOpener(body);
  }
}
