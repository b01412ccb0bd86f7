/*
  The report generator's text handling: the evaluator's markdown reply is
  turned line by line into abstract layout elements, inline markdown is
  converted to the layout engine's markup, and a candidate name is recovered
  from the level-1 record when the stored one is missing.
*/
module PdfGenerator {
  import opened Results
  import opened Text
  import ResumeEvaluator

  // ---------------------------------------------------------------------
  // Layout elements

  /** The paragraph styles the converter picks from */
  datatype Style = Normal | Heading1 | SectionHeader | SubSection | Heading4 | Bullet

  /** A paragraph of markup in a style, or vertical space measured in inches */
  datatype Element = Paragraph(markup: String, style: Style) | Spacer(height: real)

  /** Space after a paragraph or heading, in inches */
  const ParagraphGap: real := 0.1
  /** Space before a heading, in inches */
  const HeadingGap: real := 0.15

  /** The bullet glyph and space put in front of a bullet item */
  const BulletPrefix: String := "\U{2022} "

  // ---------------------------------------------------------------------
  // Inline markdown

  /** XML escaping of one character */
  function EscapeChar(c: char): String
  {
    if c == '&' then "&amp;" else if c == '<' then "&lt;" else if c == '>' then "&gt;" else [c]
  }

  /** Every character escaped on its own */
  function EscapedChars(s: String): String
  {
    if |s| == 0 then [] else EscapeChar(s[0]) + EscapedChars(s[1..])
  }

  /** The three replacements, '&' first, so no raw angle bracket survives */
  function Escape(s: String): (r: String)
    ensures '<' !in r && '>' !in r
  {
    ReplaceChar(ReplaceChar(ReplaceChar(s, '&', "&amp;"), '<', "&lt;"), '>', "&gt;")
  }

  lemma ReplaceOneChar(c: char, x: char, rep: String)
    ensures ReplaceChar([c], x, rep) == if c == x then rep else [c]
  {
    assert [c][1..] == [];
  }

  lemma EscapeOneChar(c: char)
    ensures Escape([c]) == EscapeChar(c)
  {
    if c == '&' {
      EscapeAmp();
    } else if c == '<' {
      EscapeLt();
    } else if c == '>' {
      EscapeGt();
    } else {
      ReplaceOneChar(c, '&', "&amp;");
      ReplaceOneChar(c, '<', "&lt;");
      ReplaceOneChar(c, '>', "&gt;");
    }
  }

  lemma EscapeAmp()
    ensures Escape("&") == "&amp;"
  {
    ReplaceOneChar('&', '&', "&amp;");
    ReplaceCharAbsent("&amp;", '<', "&lt;");
    ReplaceCharAbsent("&amp;", '>', "&gt;");
  }

  lemma EscapeLt()
    ensures Escape("<") == "&lt;"
  {
    ReplaceOneChar('<', '&', "&amp;");
    ReplaceOneChar('<', '<', "&lt;");
    ReplaceCharAbsent("&lt;", '>', "&gt;");
  }

  lemma EscapeGt()
    ensures Escape(">") == "&gt;"
  {
    ReplaceOneChar('>', '&', "&amp;");
    ReplaceOneChar('>', '<', "&lt;");
    ReplaceOneChar('>', '>', "&gt;");
  }

  /** The chained replacements escape each character independently: an
      ampersand introduced for '<' or '>' is never escaped again. */
  lemma {:induction false} EscapeIsCharwise(s: String)
    ensures Escape(s) == EscapedChars(s)
  {
    if |s| > 0 {
      var c := s[0];
      var t := s[1..];
      assert s == [c] + t;
      ReplaceCharAppend([c], t, '&', "&amp;");
      var a1 := ReplaceChar([c], '&', "&amp;");
      var a2 := ReplaceChar(t, '&', "&amp;");
      ReplaceCharAppend(a1, a2, '<', "&lt;");
      var b1 := ReplaceChar(a1, '<', "&lt;");
      var b2 := ReplaceChar(a2, '<', "&lt;");
      ReplaceCharAppend(b1, b2, '>', "&gt;");
      EscapeOneChar(c);
      EscapeIsCharwise(t);
    }
  }

  /** Reading the three entities back */
  function Unescape(s: String): String
    decreases |s|
  {
    if |s| == 0 then []
    else if StartsAt(s, 0, "&amp;") then "&" + Unescape(s[5..])
    else if StartsAt(s, 0, "&lt;") then "<" + Unescape(s[4..])
    else if StartsAt(s, 0, "&gt;") then ">" + Unescape(s[4..])
    else [s[0]] + Unescape(s[1..])
  }

  lemma UnescapeStep(c: char, rest: String)
    ensures Unescape(EscapeChar(c) + rest) == [c] + Unescape(rest)
  {
    var s := EscapeChar(c) + rest;
    if c == '&' {
      assert StartsAt(s, 0, "&amp;");
      assert s[5..] == rest;
    } else if c == '<' {
      assert !StartsAt(s, 0, "&amp;") by { assert s[0 + 1] != "&amp;"[1]; }
      assert StartsAt(s, 0, "&lt;");
      assert s[4..] == rest;
    } else if c == '>' {
      assert !StartsAt(s, 0, "&amp;") by { assert s[0 + 1] != "&amp;"[1]; }
      assert !StartsAt(s, 0, "&lt;") by { assert s[0 + 1] != "&lt;"[1]; }
      assert StartsAt(s, 0, "&gt;");
      assert s[4..] == rest;
    } else {
      assert s[0] == c;
      assert !StartsAt(s, 0, "&amp;") by { assert s[0 + 0] != "&amp;"[0]; }
      assert !StartsAt(s, 0, "&lt;") by { assert s[0 + 0] != "&lt;"[0]; }
      assert !StartsAt(s, 0, "&gt;") by { assert s[0 + 0] != "&gt;"[0]; }
      assert s[1..] == rest;
    }
  }

  /** Escaping loses nothing and escapes nothing twice. */
  lemma {:induction false} UnescapeEscape(s: String)
    ensures Unescape(Escape(s)) == s
  {
    EscapeIsCharwise(s);
    EscapedRoundTrip(s);
  }

  lemma {:induction false} EscapedRoundTrip(s: String)
    ensures Unescape(EscapedChars(s)) == s
  {
    if |s| > 0 {
      UnescapeStep(s[0], EscapedChars(s[1..]));
      EscapedRoundTrip(s[1..]);
      assert s == [s[0]] + s[1..];
    }
  }

  /** The closing delimiter of a lazy `(.+?)` whose content starts at `start`:
      the first q (q > start) where d occurs, the content holding no newline. */
  function LazyClose(s: String, start: nat, q: nat, d: String): (r: Option<nat>)
    requires start < q
    decreases |s| + 1 - q
    ensures r.Some? ==> q <= r.value && StartsAt(s, r.value, d)
    ensures r.Some? ==> forall k :: q - 1 <= k < r.value ==> s[k] != '\n'
    ensures r.Some? ==> forall k :: q <= k < r.value ==> !StartsAt(s, k, d)
  {
    if q > |s| || s[q - 1] == '\n' then None
    else if StartsAt(s, q, d) then Some(q)
    else LazyClose(s, start, q + 1, d)
  }

  /** The pattern `d(.+?)d` at i, replaced by open + content + close */
  function DelimitedAt(s: String, i: nat, d: String, open: String, close: String): (r: Option<(nat, String)>)
    requires |d| > 0
    ensures r.Some? ==> StartsAt(s, i, d) && i < r.value.0 <= |s|
  {
    var c := i + |d|;
    if StartsAt(s, i, d) && c < |s| then
      match LazyClose(s, c, c + 1, d)
      case Some(q) => Some((q + |d|, open + s[c..q] + close))
      case None => None
    else None
  }

  function BoldItalicAt(s: String, i: nat): Option<(nat, String)> { DelimitedAt(s, i, "***", "<b><i>", "</i></b>") }
  function BoldStarAt(s: String, i: nat): Option<(nat, String)> { DelimitedAt(s, i, "**", "<b>", "</b>") }
  function BoldUnderscoreAt(s: String, i: nat): Option<(nat, String)> { DelimitedAt(s, i, "__", "<b>", "</b>") }
  function ItalicStarAt(s: String, i: nat): Option<(nat, String)> { DelimitedAt(s, i, "*", "<i>", "</i>") }
  function ItalicUnderscoreAt(s: String, i: nat): Option<(nat, String)> { DelimitedAt(s, i, "_", "<i>", "</i>") }
  function CodeAt(s: String, i: nat): Option<(nat, String)> { DelimitedAt(s, i, "`", "<font face=\"Courier\">", "</font>") }

  /** The tail `\]\(.+?\)` of a link whose text ends at a, or a longer text */
  function LinkFrom(s: String, i: nat, a: nat): (r: Option<(nat, String)>)
    requires i + 1 < a
    decreases |s| + 1 - a
    ensures r.Some? ==> i < r.value.0 <= |s|
  {
    if a > |s| || s[a - 1] == '\n' then None
    else if StartsAt(s, a, "](") && a + 2 < |s| then
      match LazyClose(s, a + 2, a + 3, ")")
      case Some(b) => Some((b + 1, s[i + 1..a]))
      case None => LinkFrom(s, i, a + 1)
    else LinkFrom(s, i, a + 1)
  }

  /** `\[(.+?)\]\(.+?\)` at i, replaced by the link text */
  function LinkAt(s: String, i: nat): (r: Option<(nat, String)>)
    ensures r.Some? ==> i < |s| && s[i] == '['
  {
    if i + 1 < |s| && s[i] == '[' then LinkFrom(s, i, i + 2) else None
  }

  /** The substitutions in the order bold-italic, bold, italic, code, links */
  function Substitute(t0: String): String
  {
    var t1 := Sub(t0, BoldItalicAt);
    var t2 := Sub(Sub(t1, BoldStarAt), BoldUnderscoreAt);
    var t3 := Sub(Sub(t2, ItalicStarAt), ItalicUnderscoreAt);
    var t4 := Sub(t3, CodeAt);
    Sub(t4, LinkAt)
  }

  /** `_convert_inline_markdown`: "" stays "", anything else is escaped and
      then substituted. */
  function ConvertInlineMarkdown(text: String): String
  {
    if text == [] then [] else Substitute(Escape(text))
  }

  lemma ConvertEmpty()
    ensures ConvertInlineMarkdown([]) == []
  {
  }

  /** None of the substitutions applies to text lacking its opening character. */
  lemma DelimitedAbsent(s: String, d: String, open: String, close: String)
    requires |d| > 0 && d[0] !in s
    ensures forall q :: 0 <= q <= |s| ==> DelimitedAt(s, q, d, open, close).None?
  {
  }

  lemma StarFree(t: String)
    requires '*' !in t
    ensures Sub(t, BoldItalicAt) == t && Sub(t, BoldStarAt) == t && Sub(t, ItalicStarAt) == t
  {
    DelimitedAbsent(t, "***", "<b><i>", "</i></b>");
    SubNone(t, BoldItalicAt);
    DelimitedAbsent(t, "**", "<b>", "</b>");
    SubNone(t, BoldStarAt);
    DelimitedAbsent(t, "*", "<i>", "</i>");
    SubNone(t, ItalicStarAt);
  }

  lemma UnderscoreFree(t: String)
    requires '_' !in t
    ensures Sub(t, BoldUnderscoreAt) == t && Sub(t, ItalicUnderscoreAt) == t
  {
    DelimitedAbsent(t, "__", "<b>", "</b>");
    SubNone(t, BoldUnderscoreAt);
    DelimitedAbsent(t, "_", "<i>", "</i>");
    SubNone(t, ItalicUnderscoreAt);
  }

  lemma TickAndBracketFree(t: String)
    requires '`' !in t && '[' !in t
    ensures Sub(t, CodeAt) == t && Sub(t, LinkAt) == t
  {
    DelimitedAbsent(t, "`", "<font face=\"Courier\">", "</font>");
    SubNone(t, CodeAt);
    SubNone(t, LinkAt);
  }

  /** Text without markdown punctuation is only escaped. */
  lemma PlainTextOnlyEscaped(text: String)
    requires '*' !in text && '_' !in text && '`' !in text && '[' !in text
    ensures ConvertInlineMarkdown(text) == Escape(text)
  {
    if text != [] {
      var t := Escape(text);
      assert '*' !in t && '_' !in t && '`' !in t && '[' !in t;
      StarFree(t);
      UnderscoreFree(t);
      TickAndBracketFree(t);
    }
  }

  /** Characters that the escaping or one of the inline patterns reacts to */
  predicate IsInlineSpecial(c: char)
  {
    c == '*' || c == '_' || c == '`' || c == '[' || c == ']' || c == '(' || c == ')' ||
    c == '&' || c == '<' || c == '>' || c == '\n'
  }

  /** A non-empty run of text with none of them */
  predicate PlainInline(w: String)
  {
    |w| > 0 && forall k :: 0 <= k < |w| ==> !IsInlineSpecial(w[k])
  }

  lemma PlainChars(w: String)
    requires PlainInline(w)
    ensures '*' !in w && '_' !in w && '`' !in w && '[' !in w && ']' !in w && ')' !in w
    ensures '&' !in w && '<' !in w && '>' !in w && '\n' !in w
  {
    forall c | c in w
      ensures IsInlineSpecial(c) == false
    {
      var k :| 0 <= k < |w| && w[k] == c;
    }
  }

  lemma EscapeNothing(s: String)
    requires '&' !in s && '<' !in s && '>' !in s
    ensures Escape(s) == s
  {
    ReplaceCharAbsent(s, '&', "&amp;");
    ReplaceCharAbsent(s, '<', "&lt;");
    ReplaceCharAbsent(s, '>', "&gt;");
  }

  /** The lazy scan stops at the first occurrence of d at or after q. */
  lemma {:induction false} LazyCloseFinds(s: String, start: nat, q: nat, d: String, e: nat)
    requires start < q <= e && StartsAt(s, e, d)
    requires forall k :: q - 1 <= k < e ==> s[k] != '\n'
    requires forall k :: q <= k < e ==> !StartsAt(s, k, d)
    decreases e - q
    ensures LazyClose(s, start, q, d) == Some(e)
  {
    if q < e {
      LazyCloseFinds(s, start, q + 1, d, e);
    }
  }

  /** d + w + d, with w free of newlines and of d's first character, is one
      match of `d(.+?)d` covering the whole text. */
  lemma DelimitedWhole(s: String, d: String, w: String, open: String, close: String)
    requires |d| > 0 && |w| > 0 && s == d + w + d
    requires forall k :: 0 <= k < |w| ==> w[k] != d[0] && w[k] != '\n'
    ensures DelimitedAt(s, 0, d, open, close) == Some((|s|, open + w + close))
  {
    DelimitedParts(s, d, w);
    var c := 0 + |d|;
    LazyCloseOver(s, c, c + 1, w, d);
    assert s[c..c + |w|] == w;
  }

  lemma DelimitedParts(s: String, d: String, w: String)
    requires s == d + w + d
    ensures StartsAt(s, 0, d) && StartsAt(s, |d| + |w|, d) && s[|d|..|d| + |w|] == w
  {
    assert forall k :: 0 <= k < |d| ==> s[k] == d[k];
    assert forall k :: 0 <= k < |d| ==> s[|d| + |w| + k] == d[k];
  }

  /** A matcher that matches the whole text replaces it entirely. */
  lemma SubWhole(s: String, m: (String, nat) -> Option<(nat, String)>, rep: String)
    requires |s| > 0 && m(s, 0) == Some((|s|, rep))
    ensures Sub(s, m) == rep
  {
    SubFromLeftmost(s, 0, m, 0);
    assert s[0..0] == [];
  }

  /** No character that opens a bold, italic, code or link pattern */
  predicate NoInlineMark(r: String)
  {
    '*' !in r && '_' !in r && '`' !in r && '[' !in r
  }

  /** The bold and bold-italic tags around plain text open no further pattern. */
  lemma TagsAroundPlain(w: String)
    requires PlainInline(w)
    ensures NoInlineMark("<b>" + w + "</b>") && NoInlineMark("<b><i>" + w + "</i></b>")
  {
    PlainChars(w);
  }

  /** Text with no star, underscore, backtick or bracket passes the
      substitutions after bold-italic unchanged. */
  lemma LaterSubstitutionsKeep(r: String)
    requires NoInlineMark(r)
    ensures Sub(Sub(Sub(Sub(Sub(Sub(r, BoldStarAt), BoldUnderscoreAt), ItalicStarAt), ItalicUnderscoreAt), CodeAt), LinkAt) == r
    ensures Sub(Sub(Sub(Sub(Sub(r, BoldUnderscoreAt), ItalicStarAt), ItalicUnderscoreAt), CodeAt), LinkAt) == r
  {
    StarFree(r);
    UnderscoreFree(r);
    TickAndBracketFree(r);
  }

  /** Delimiters of stars around plain text need no escaping. */
  lemma StarsAroundPlain(d: String, w: String)
    requires PlainInline(w) && forall k :: 0 <= k < |d| ==> d[k] == '*'
    ensures Escape(d + w + d) == d + w + d
  {
    PlainChars(w);
    EscapeNothing(d + w + d);
  }

  /** `***w***` becomes bold italic w. */
  lemma BoldItalicConverted(w: String)
    requires PlainInline(w)
    ensures ConvertInlineMarkdown("***" + w + "***") == "<b><i>" + w + "</i></b>"
  {
    var s := "***" + w + "***";
    var r := "<b><i>" + w + "</i></b>";
    StarsAroundPlain("***", w);
    PlainChars(w);
    DelimitedWhole(s, "***", w, "<b><i>", "</i></b>");
    SubWhole(s, BoldItalicAt, r);
    TagsAroundPlain(w);
    LaterSubstitutionsKeep(r);
  }

  /** `**w**` has no run of three stars, so the bold-italic pattern leaves it alone. */
  lemma NoTripleStar(w: String)
    requires PlainInline(w)
    ensures Sub("**" + w + "**", BoldItalicAt) == "**" + w + "**"
  {
    var s := "**" + w + "**";
    forall q | 0 <= q <= |s|
      ensures BoldItalicAt(s, q).None?
    {
      if q <= 1 {
        assert s[2] == w[0];
        assert !StartsAt(s, q, "***") by { assert s[q + (2 - q)] != "***"[2 - q]; }
      } else if q < 2 + |w| {
        assert s[q] == w[q - 2];
        assert !StartsAt(s, q, "***") by { assert s[q + 0] != "***"[0]; }
      }
    }
    SubNone(s, BoldItalicAt);
  }

  /** `**w**` becomes bold w. */
  lemma BoldConverted(w: String)
    requires PlainInline(w)
    ensures ConvertInlineMarkdown("**" + w + "**") == "<b>" + w + "</b>"
  {
    var s := "**" + w + "**";
    var r := "<b>" + w + "</b>";
    StarsAroundPlain("**", w);
    PlainChars(w);
    NoTripleStar(w);
    DelimitedWhole(s, "**", w, "<b>", "</b>");
    SubWhole(s, BoldStarAt, r);
    TagsAroundPlain(w);
    LaterSubstitutionsKeep(r);
  }

  /** The scan for `](` after the link text stops at the first one. */
  lemma {:induction false} LinkFromFinds(s: String, i: nat, a: nat, e: nat, b: nat)
    requires i + 1 < a <= e && e + 2 < |s| && StartsAt(s, e, "](")
    requires LazyClose(s, e + 2, e + 3, ")") == Some(b)
    requires forall k :: a - 1 <= k < e ==> s[k] != '\n'
    requires forall k :: a <= k < e ==> !StartsAt(s, k, "](")
    decreases e - a
    ensures LinkFrom(s, i, a) == Some((b + 1, s[i + 1..e]))
  {
    if a < e {
      LinkFromFinds(s, i, a + 1, e, b);
    } else {
      assert s[a - 1] != '\n';
    }
  }

  /** Text without stars, underscores or backticks reaches the link pattern unchanged. */
  lemma OnlyLinksApply(s: String)
    requires s != [] && '&' !in s && '<' !in s && '>' !in s
    requires '*' !in s && '_' !in s && '`' !in s
    ensures ConvertInlineMarkdown(s) == Sub(s, LinkAt)
  {
    EscapeNothing(s);
    StarFree(s);
    UnderscoreFree(s);
    DelimitedAbsent(s, "`", "<font face=\"Courier\">", "</font>");
    SubNone(s, CodeAt);
  }

  /** A lazy `(.+?)` over w, w free of newlines and of d's first character and
      followed by d, closes right after w. */
  lemma LazyCloseOver(s: String, c: nat, q: nat, w: String, d: String)
    requires q == c + 1 && |w| > 0 && |d| > 0 && c + |w| <= |s| && s[c..c + |w|] == w
    requires StartsAt(s, c + |w|, d)
    requires forall k :: 0 <= k < |w| ==> w[k] != d[0] && w[k] != '\n'
    ensures LazyClose(s, c, q, d) == Some(c + |w|)
  {
    var e := c + |w|;
    forall k | c + 1 <= k < e
      ensures !StartsAt(s, k, d)
    {
      assert s[k + 0] == w[k - c];
    }
    forall k | c <= k < e
      ensures s[k] != '\n'
    {
      assert s[k] == w[k - c];
    }
    LazyCloseFinds(s, c, q, d, e);
  }

  /** The target u of `[t](u)` ends at the closing parenthesis. */
  lemma LinkTargetClosed(s: String, t: String, u: String, e: nat)
    requires s == "[" + t + "](" + u + ")" && PlainInline(u) && e == |t| + 1
    ensures LazyClose(s, e + 2, e + 3, ")") == Some(e + 2 + |u|)
  {
    LinkTargetSlice(s, t, u, e + 2);
    LazyCloseOver(s, e + 2, e + 3, u, ")");
  }

  lemma LinkTargetSlice(s: String, t: String, u: String, c: nat)
    requires s == "[" + t + "](" + u + ")" && c == |t| + 3
    ensures |s| == c + |u| + 1 && s[c..c + |u|] == u && StartsAt(s, c + |u|, ")")
  {
    assert s == ("[" + t + "](") + u + ")";
    assert s[c + |u|] == ')';
  }

  /** A link text w from i + 1, free of newlines and of ']', followed by a
      closed target, is the link found at i. */
  lemma LinkTextOver(s: String, i: nat, a: nat, e: nat, b: nat, w: String)
    requires a == i + 2 && e == i + 1 + |w| && |w| > 0 && e + 2 < |s| && s[i + 1..e] == w
    requires forall k :: 0 <= k < |w| ==> w[k] != ']' && w[k] != '\n'
    requires StartsAt(s, e, "](") && LazyClose(s, e + 2, e + 3, ")") == Some(b)
    ensures LinkFrom(s, i, a) == Some((b + 1, w))
  {
    forall k | a <= k < e
      ensures !StartsAt(s, k, "](")
    {
      assert s[k + 0] == w[k - i - 1] != "]("[0];
    }
    forall k | a - 1 <= k < e
      ensures s[k] != '\n'
    {
      assert s[k] == w[k - i - 1];
    }
    LinkFromFinds(s, i, a, e, b);
  }

  /** `[t](u)` as a whole is one link match whose replacement is t. */
  lemma LinkAtWhole(s: String, t: String, u: String)
    requires s == "[" + t + "](" + u + ")" && PlainInline(t) && PlainInline(u)
    ensures LinkAt(s, 0) == Some((|s|, t))
  {
    var i := 0;
    var e := i + 1 + |t|;
    LinkTargetClosed(s, t, u, e);
    LinkTextSlice(s, t, u, i, e);
    PlainChars(t);
    LinkTextOver(s, i, i + 2, e, e + 2 + |u|, t);
  }

  lemma LinkTextSlice(s: String, t: String, u: String, i: nat, e: nat)
    requires s == "[" + t + "](" + u + ")" && i == 0 && e == i + 1 + |t|
    ensures s[i] == '[' && e + 2 < |s| && s[i + 1..e] == t && StartsAt(s, e, "](")
  {
    assert s == "[" + t + ("](" + u + ")");
    assert s[e] == ']' && s[e + 1] == '(';
  }

  /** `[t](u)` keeps only the link text t. */
  lemma LinkConverted(t: String, u: String)
    requires PlainInline(t) && PlainInline(u)
    ensures ConvertInlineMarkdown("[" + t + "](" + u + ")") == t
  {
    var s := "[" + t + "](" + u + ")";
    PlainChars(t);
    PlainChars(u);
    assert '&' !in s && '<' !in s && '>' !in s;
    assert '*' !in s && '_' !in s && '`' !in s;
    OnlyLinksApply(s);
    LinkAtWhole(s, t, u);
    SubWhole(s, LinkAt, t);
  }

  // ---------------------------------------------------------------------
  // Line classification

  predicate IsHash(c: char) { c == '#' }

  /** `^(#{1,6})\s+(.+)` on a stripped line: the level and the heading text.
      A stripped line never ends in white space, so the space run never
      reaches the end of the line when it is followed by text. */
  function HeadingOf(line: String): (r: Option<(nat, String)>)
    ensures r.Some? ==> 1 <= r.value.0 <= 6 && r.value.0 < |line| && IsSpace(line[r.value.0])
    ensures r.Some? ==> forall k :: 0 <= k < r.value.0 ==> line[k] == '#'
    ensures r.Some? ==> 0 < |r.value.1| < |line| - r.value.0
    ensures r.Some? ==> r.value.1 == line[|line| - |r.value.1|..]
  {
    var h := RunLength(line, 0, IsHash);
    var w := SpaceRun(line, h);
    if 1 <= h <= 6 && w > 0 && h + w < |line| then Some((h, line[h + w..])) else None
  }

  /** Heading levels 1, 2 and 3 have their own styles; deeper ones share one */
  function HeadingStyle(level: nat): Style
  {
    if level == 1 then Heading1 else if level == 2 then SectionHeader else if level == 3 then SubSection else Heading4
  }

  predicate IsBulletMarker(c: char) { c == '*' || c == '-' || c == '+' }

  /** `^[\*\-\+]\s+` on a line: the text after the marker and its spaces */
  function BulletOf(line: String): (r: Option<String>)
    ensures r.Some? ==> |line| > 1 && IsBulletMarker(line[0]) && IsSpace(line[1])
    ensures r.Some? ==> |r.value| < |line| - 1 && r.value == line[|line| - |r.value|..]
  {
    if |line| > 0 && IsBulletMarker(line[0]) && SpaceRun(line, 1) > 0 then Some(line[1 + SpaceRun(line, 1)..]) else None
  }

  /** `line.startswith("```")` */
  predicate IsFence(line: String) { |line| >= 3 && line[0] == '`' && line[1] == '`' && line[2] == '`' }

  /** What a stripped line is, tested in the converter's order */
  datatype LineKind = Blank | HeadingLine(heading: Option<(nat, String)>) | BulletLine(item: String) | FenceLine | TextLine

  function Classify(line: String): (k: LineKind)
    ensures k.Blank? <==> line == []
    ensures k.HeadingLine? ==> line[0] == '#' && k.heading == HeadingOf(line)
    ensures k.BulletLine? ==> line[0] != '#' && BulletOf(line) == Some(k.item)
    ensures k.FenceLine? ==> IsFence(line)
    ensures k.TextLine? ==> line[0] != '#' && BulletOf(line).None? && !IsFence(line)
  {
    if line == [] then Blank
    else if line[0] == '#' then HeadingLine(HeadingOf(line))
    else if BulletOf(line).Some? then BulletLine(BulletOf(line).value)
    else if IsFence(line) then FenceLine
    else TextLine
  }

  /** The inner loop's test for a closing fence agrees with the
      classification: a stripped line opening with three backticks is a fence
      line, and only such lines are. */
  lemma FenceLineKind(line: String)
    ensures Classify(line) == FenceLine <==> IsFence(line)
  {
  }

  /** A line as the converter sees it: its stripped text and its kind */
  datatype Row = Row(text: String, kind: LineKind)

  function RowOf(line: String): (r: Row)
    ensures r.text == Strip(line) && r.kind == Classify(r.text)
  {
    var text := Strip(line);
    Row(text, Classify(text))
  }

  /** The rows of a reply's lines */
  function Rows(lines: seq<String>): (r: seq<Row>)
    ensures |r| == |lines|
  {
    seq(|lines|, k requires 0 <= k < |lines| => RowOf(lines[k]))
  }

  /** Row k is line k stripped and classified. */
  lemma RowsAt(lines: seq<String>)
    ensures forall k :: 0 <= k < |lines| ==> Rows(lines)[k] == RowOf(lines[k])
  {
  }

  /** The index of the first row at or after j whose text opens with three
      backticks, or the number of rows if there is none */
  function FenceEnd(rows: seq<Row>, j: nat): (k: nat)
    requires j <= |rows|
    decreases |rows| - j
    ensures j <= k <= |rows|
  {
    if j == |rows| || IsFence(rows[j].text) then j else FenceEnd(rows, j + 1)
  }

  /** FenceEnd stops at the first fence row and at no row before it. */
  lemma {:induction false} FenceEndFirst(rows: seq<Row>, j: nat)
    requires j <= |rows|
    decreases |rows| - j
    ensures forall m :: j <= m < FenceEnd(rows, j) ==> !IsFence(rows[m].text)
    ensures FenceEnd(rows, j) < |rows| ==> IsFence(rows[FenceEnd(rows, j)].text)
  {
    if j < |rows| && !IsFence(rows[j].text) {
      FenceEndFirst(rows, j + 1);
    }
  }

  /** A row that does not open a fence is passed over. */
  lemma FenceEndStep(rows: seq<Row>, j: nat)
    requires j < |rows| && !IsFence(rows[j].text)
    ensures FenceEnd(rows, j) == FenceEnd(rows, j + 1)
  {
  }

  /** The first fence row at or after j */
  lemma {:induction false} FenceEndAt(rows: seq<Row>, j: nat, close: nat)
    requires j <= close < |rows| && IsFence(rows[close].text)
    requires forall k :: j <= k < close ==> !IsFence(rows[k].text)
    decreases close - j
    ensures FenceEnd(rows, j) == close
  {
    if j < close {
      FenceEndAt(rows, j + 1, close);
    }
  }

  /** The paragraph a non-empty buffer of lines becomes */
  function Flush(pending: seq<String>, convert: String -> String): seq<Element>
  {
    if pending == [] then [] else [Paragraph(convert(Join(pending, " ")), Normal)]
  }

  /** A blank line's flush: the paragraph and a gap after it */
  function FlushWithGap(pending: seq<String>, convert: String -> String): seq<Element>
  {
    if pending == [] then [] else Flush(pending, convert) + [Spacer(ParagraphGap)]
  }

  /** The elements a '#' line contributes */
  function HeadingElements(heading: Option<(nat, String)>, convert: String -> String): seq<Element>
  {
    match heading
    case Some((level, text)) =>
      [Spacer(HeadingGap), Paragraph(convert(text), HeadingStyle(level)), Spacer(ParagraphGap)]
    case None => []
  }

  /** The element a bullet line contributes */
  function BulletElement(item: String, convert: String -> String): Element
  {
    Paragraph(BulletPrefix + convert(item), Bullet)
  }

  /** The elements produced from row i on, with `pending` buffered lines */
  function Render(rows: seq<Row>, i: nat, pending: seq<String>, convert: String -> String): seq<Element>
    decreases |rows| + 1 - i
  {
    if i >= |rows| then Flush(pending, convert)
    else
      match rows[i].kind
      case Blank => FlushWithGap(pending, convert) + Render(rows, i + 1, [], convert)
      case HeadingLine(heading) => Flush(pending, convert) + HeadingElements(heading, convert) + Render(rows, i + 1, [], convert)
      case BulletLine(item) => Flush(pending, convert) + [BulletElement(item, convert)] + Render(rows, i + 1, [], convert)
      case FenceLine => Render(rows, FenceEnd(rows, i + 1) + 1, pending, convert)
      case TextLine => Render(rows, i + 1, pending + [rows[i].text], convert)
  }

  /** The elements of a whole reply */
  function ElementsOf(text: String): seq<Element>
  {
    if text == [] then [] else Render(Rows(SplitOn(text, '\n')), 0, [], ConvertInlineMarkdown)
  }

  /** The paragraph a non-empty buffer becomes when it is flushed */
  method FlushBuffer(pending: seq<String>, convert: String -> String) returns (out: seq<Element>)
    ensures out == Flush(pending, convert)
  {
    out := [];
    if pending != [] {
      out := [Paragraph(convert(Join(pending, " ")), Normal)];
    }
  }

  /** A blank line: the buffer is flushed with a gap after it. */
  method BlankStep(ghost rows: seq<Row>, i: nat, pending: seq<String>, convert: String -> String) returns (emitted: seq<Element>)
    requires i < |rows| && rows[i].kind == Blank
    ensures Render(rows, i, pending, convert) == emitted + Render(rows, i + 1, [], convert)
  {
    BlankLineFlushes(rows, i, pending, convert);
    emitted := [];
    if pending != [] {
      emitted := [Paragraph(convert(Join(pending, " ")), Normal), Spacer(ParagraphGap)];
    }
  }

  /** A '#' line: the buffer is flushed and a well-formed heading added. */
  method HeadingStep(ghost rows: seq<Row>, i: nat, pending: seq<String>, heading: Option<(nat, String)>, convert: String -> String)
    returns (emitted: seq<Element>)
    requires i < |rows| && rows[i].kind == HeadingLine(heading)
    ensures Render(rows, i, pending, convert) == emitted + Render(rows, i + 1, [], convert)
  {
    emitted := FlushBuffer(pending, convert);
    if heading.Some? {
      var level := heading.value.0;
      var text := heading.value.1;
      HeadingLineEmits(rows, i, pending, level, text, convert);
      emitted := emitted + [Spacer(HeadingGap), Paragraph(convert(text), HeadingStyle(level)), Spacer(ParagraphGap)];
    } else {
      MalformedHeadingEmitsNothing(rows, i, pending, convert);
    }
  }

  /** A bullet line: the buffer is flushed and one bullet paragraph added. */
  method BulletStep(ghost rows: seq<Row>, i: nat, pending: seq<String>, item: String, convert: String -> String) returns (emitted: seq<Element>)
    requires i < |rows| && rows[i].kind == BulletLine(item)
    ensures Render(rows, i, pending, convert) == emitted + Render(rows, i + 1, [], convert)
  {
    BulletLineEmits(rows, i, pending, item, convert);
    emitted := FlushBuffer(pending, convert);
    emitted := emitted + [Paragraph(BulletPrefix + convert(item), Bullet)];
  }

  /** A fence line: the following lines up to the next one opening with three
      backticks are skipped; the result is the index just past that line. */
  method FenceStep(rows: seq<Row>, i: nat) returns (next: nat)
    requires i < |rows|
    ensures i + 1 < next <= |rows| + 1
    ensures next == FenceEnd(rows, i + 1) + 1
  {
    var close := i + 1;
    while close < |rows| && !IsFence(rows[close].text)
      invariant i < close <= |rows|
      invariant FenceEnd(rows, close) == FenceEnd(rows, i + 1)
      decreases |rows| - close
    {
      FenceEndStep(rows, close);
      close := close + 1;
    }
    next := close + 1;
  }

  /** A blank, heading or bullet line: the buffer is flushed and the line's
      own elements follow. */
  method FlushingStep(ghost rows: seq<Row>, i: nat, row: Row, pending: seq<String>, convert: String -> String) returns (emitted: seq<Element>)
    requires i < |rows| && rows[i] == row && (row.kind.Blank? || row.kind.HeadingLine? || row.kind.BulletLine?)
    ensures Render(rows, i, pending, convert) == emitted + Render(rows, i + 1, [], convert)
  {
    match row.kind
    case Blank =>
      emitted := BlankStep(rows, i, pending, convert);
    case HeadingLine(heading) =>
      emitted := HeadingStep(rows, i, pending, heading, convert);
    case BulletLine(item) =>
      emitted := BulletStep(rows, i, pending, item, convert);
  }

  /** One turn of the converter's loop at line i (rows holds the stripped
      and classified lines): the elements it appends, the next line index and
      the new buffer. */
  method ConvertLine(rows: seq<Row>, i: nat, row: Row, pending: seq<String>, convert: String -> String)
    returns (emitted: seq<Element>, next: nat, buffer: seq<String>)
    requires i < |rows| && rows[i] == row
    ensures i < next <= |rows| + 1
    ensures Render(rows, i, pending, convert) == emitted + Render(rows, next, buffer, convert)
  {
    match row.kind
    case Blank =>
      emitted := FlushingStep(rows, i, row, pending, convert);
      next, buffer := i + 1, [];
    case HeadingLine(_) =>
      emitted := FlushingStep(rows, i, row, pending, convert);
      next, buffer := i + 1, [];
    case BulletLine(_) =>
      emitted := FlushingStep(rows, i, row, pending, convert);
      next, buffer := i + 1, [];
    case FenceLine =>
      next := FenceStep(rows, i);
      FenceSkipped(rows, i, pending, convert);
      emitted, buffer := [], pending;
    case TextLine =>
      TextLineBuffered(rows, i, pending, convert);
      emitted, next, buffer := [], i + 1, pending + [row.text];
  }

  /** `_markdown_to_pdf_elements`: one pass over the lines with a buffer of
      regular lines that blank lines, headings and bullets flush. */
  method MarkdownToPdfElements(text: String) returns (elements: seq<Element>)
    ensures elements == ElementsOf(text)
    ensures text == [] ==> elements == []
  {
    if text == [] {
      return [];
    }
    var lines := SplitOn(text, '\n');
    var rows := Rows(lines);
    assert ElementsOf(text) == Render(rows, 0, [], ConvertInlineMarkdown);
    elements := [];
    var i := 0;
    var pending: seq<String> := [];
    while i < |lines|
      invariant i <= |lines| + 1
      invariant elements + Render(rows, i, pending, ConvertInlineMarkdown) == Render(rows, 0, [], ConvertInlineMarkdown)
      decreases |lines| + 1 - i
    {
      var emitted, next, buffer := ConvertLine(rows, i, rows[i], pending, ConvertInlineMarkdown);
      assert elements + Render(rows, i, pending, ConvertInlineMarkdown)
        == (elements + emitted) + Render(rows, next, buffer, ConvertInlineMarkdown);
      elements, i, pending := elements + emitted, next, buffer;
    }
    assert Render(rows, i, pending, ConvertInlineMarkdown) == Flush(pending, ConvertInlineMarkdown);
    var last := FlushBuffer(pending, ConvertInlineMarkdown);
    elements := elements + last;
  }

  // ---------------------------------------------------------------------
  // Properties of the line loop

  /** The buffered texts of rows */
  function Texts(rows: seq<Row>): (r: seq<String>)
    ensures |r| == |rows|
    ensures forall k :: 0 <= k < |rows| ==> r[k] == rows[k].text
  {
    seq(|rows|, k requires 0 <= k < |rows| => rows[k].text)
  }

  /** A regular line is appended to the buffer. */
  lemma {:induction false} TextLineBuffered(rows: seq<Row>, i: nat, pending: seq<String>, convert: String -> String)
    requires i < |rows| && rows[i].kind == TextLine
    ensures Render(rows, i, pending, convert) == Render(rows, i + 1, pending + [rows[i].text], convert)
  {
  }

  /** A run of regular lines is buffered whole and flushed as one paragraph. */
  lemma {:induction false} RegularLinesJoin(rows: seq<Row>, i: nat, pending: seq<String>, convert: String -> String)
    requires i <= |rows|
    requires forall k :: i <= k < |rows| ==> rows[k].kind == TextLine
    decreases |rows| - i
    ensures Render(rows, i, pending, convert) == Flush(pending + Texts(rows[i..]), convert)
  {
    if i == |rows| {
      assert pending + Texts(rows[i..]) == pending;
    } else {
      TextLineBuffered(rows, i, pending, convert);
      RegularLinesJoin(rows, i + 1, pending + [rows[i].text], convert);
      TextsStep(rows, i, pending);
    }
  }

  lemma TextsStep(rows: seq<Row>, i: nat, pending: seq<String>)
    requires i < |rows|
    ensures pending + [rows[i].text] + Texts(rows[i + 1..]) == pending + Texts(rows[i..])
  {
    assert Texts(rows[i..]) == [rows[i].text] + Texts(rows[i + 1..]);
  }

  /** Consecutive regular lines become one Normal paragraph of their stripped
      forms joined by single spaces. */
  lemma {:induction false} RegularLinesParagraph(rows: seq<Row>, convert: String -> String)
    requires |rows| > 0
    requires forall k :: 0 <= k < |rows| ==> rows[k].kind == TextLine
    ensures Render(rows, 0, [], convert) == [Paragraph(convert(Join(Texts(rows), " ")), Normal)]
  {
    RegularLinesJoin(rows, 0, [], convert);
    assert rows[0..] == rows;
    assert [] + Texts(rows) == Texts(rows);
  }

  /** A blank line flushes the buffer and adds one spacer after it; with an
      empty buffer it contributes nothing. */
  lemma {:induction false} BlankLineFlushes(rows: seq<Row>, i: nat, pending: seq<String>, convert: String -> String)
    requires i < |rows| && rows[i].kind == Blank
    ensures pending == [] ==> Render(rows, i, pending, convert) == Render(rows, i + 1, [], convert)
    ensures pending != [] ==>
      Render(rows, i, pending, convert) ==
        [Paragraph(convert(Join(pending, " ")), Normal), Spacer(ParagraphGap)] + Render(rows, i + 1, [], convert)
  {
  }

  /** A well-formed heading line flushes the buffer (without a spacer) and adds
      spacer, heading and spacer. */
  lemma {:induction false} HeadingLineEmits(rows: seq<Row>, i: nat, pending: seq<String>, level: nat, heading: String, convert: String -> String)
    requires i < |rows| && rows[i].kind == HeadingLine(Some((level, heading)))
    ensures Render(rows, i, pending, convert) ==
      Flush(pending, convert) + [Spacer(HeadingGap), Paragraph(convert(heading), HeadingStyle(level)), Spacer(ParagraphGap)]
      + Render(rows, i + 1, [], convert)
  {
  }

  /** A '#' line without the heading form emits nothing but still flushes. */
  lemma {:induction false} MalformedHeadingEmitsNothing(rows: seq<Row>, i: nat, pending: seq<String>, convert: String -> String)
    requires i < |rows| && rows[i].kind == HeadingLine(None)
    ensures Render(rows, i, pending, convert) == Flush(pending, convert) + Render(rows, i + 1, [], convert)
  {
  }

  /** The heading form: one to six '#', white space, then the text. */
  lemma HeadingForm(hashes: nat, gap: String, heading: String)
    requires 1 <= hashes <= 6
    requires |gap| > 0 && forall k :: 0 <= k < |gap| ==> IsSpace(gap[k])
    requires |heading| > 0 && !IsSpace(heading[0])
    ensures HeadingOf(seq(hashes, _ => '#') + gap + heading) == Some((hashes, heading))
  {
    var line := seq(hashes, _ => '#') + gap + heading;
    RunLengthExact(line, 0, hashes, IsHash);
    RunLengthExact(line, hashes, |gap|, IsSpace);
    assert line[hashes + |gap|..] == heading;
  }

  /** The bullet form: a marker, white space, then the item; the line is a
      bullet whose item is what follows the white space. */
  lemma BulletForm(marker: char, gap: String, item: String)
    requires IsBulletMarker(marker)
    requires |gap| > 0 && forall k :: 0 <= k < |gap| ==> IsSpace(gap[k])
    requires item == [] || !IsSpace(item[0])
    ensures BulletOf([marker] + gap + item) == Some(item)
    ensures Classify([marker] + gap + item) == BulletLine(item)
  {
    var line := [marker] + gap + item;
    RunLengthExact(line, 1, |gap|, IsSpace);
    assert line[1 + |gap|..] == item;
  }

  /** A bullet line emits exactly one Bullet paragraph: the marker and its
      spaces are replaced by the bullet glyph. */
  lemma {:induction false} BulletLineEmits(rows: seq<Row>, i: nat, pending: seq<String>, item: String, convert: String -> String)
    requires i < |rows| && rows[i].kind == BulletLine(item)
    ensures Render(rows, i, pending, convert) ==
      Flush(pending, convert) + [Paragraph(BulletPrefix + convert(item), Bullet)] + Render(rows, i + 1, [], convert)
  {
  }

  /** A fenced block, up to and including its closing line (or the end of the
      reply), emits nothing and leaves the buffer as it was. */
  lemma {:induction false} FenceSkipped(rows: seq<Row>, i: nat, pending: seq<String>, convert: String -> String)
    requires i < |rows| && rows[i].kind == FenceLine
    ensures Render(rows, i, pending, convert) == Render(rows, FenceEnd(rows, i + 1) + 1, pending, convert)
  {
  }

  /** A block from an opening fence line to the next fence line is skipped
      whole, whatever is buffered. */
  lemma {:induction false} FencedBlockSkipped(rows: seq<Row>, open: nat, close: nat, pending: seq<String>, convert: String -> String)
    requires open < close < |rows| && rows[open].kind == FenceLine
    requires IsFence(rows[close].text)
    requires forall k :: open < k < close ==> !IsFence(rows[k].text)
    ensures Render(rows, open, pending, convert) == Render(rows, close + 1, pending, convert)
  {
    FenceEndAt(rows, open + 1, close);
    FenceSkipped(rows, open, pending, convert);
  }

  /** A regular last line is flushed together with the buffer. */
  lemma {:induction false} LastLineFlushed(rows: seq<Row>, i: nat, pending: seq<String>, convert: String -> String)
    requires i + 1 == |rows| && rows[i].kind == TextLine
    ensures Render(rows, i, pending, convert) == Flush(pending + [rows[i].text], convert)
  {
    TextLineBuffered(rows, i, pending, convert);
  }

  /** Text on both sides of a fenced block merges into one paragraph. */
  lemma {:induction false} FenceKeepsParagraph(rows: seq<Row>, close: nat, convert: String -> String)
    requires 1 < close && close + 2 == |rows|
    requires rows[0].kind == TextLine && rows[close + 1].kind == TextLine
    requires rows[1].kind == FenceLine && IsFence(rows[close].text)
    requires forall k :: 1 < k < close ==> !IsFence(rows[k].text)
    ensures Render(rows, 0, [], convert) == [Paragraph(convert(rows[0].text + " " + rows[close + 1].text), Normal)]
  {
    var b, a := rows[0].text, rows[close + 1].text;
    TextLineBuffered(rows, 0, [], convert);
    assert [] + [b] == [b];
    FencedBlockSkipped(rows, 1, close, [b], convert);
    LastLineFlushed(rows, close + 1, [b], convert);
    TwoLinesFlushed(b, a, convert);
  }

  lemma {:induction false} TwoLinesFlushed(b: String, a: String, convert: String -> String)
    ensures Flush([b] + [a], convert) == [Paragraph(convert(b + " " + a), Normal)]
  {
    assert [b] + [a] == [b, a];
    assert Join([b, a], " ") == b + " " + a;
  }

  /** A reply whose lines are all regular text becomes one paragraph of the
      stripped lines joined by spaces. */
  lemma ProseReplyOneParagraph(text: String)
    requires text != []
    requires forall k :: 0 <= k < |SplitOn(text, '\n')| ==> IsRegular(Strip(SplitOn(text, '\n')[k]))
    ensures ElementsOf(text) == [Paragraph(ConvertInlineMarkdown(Join(StripAll(SplitOn(text, '\n')), " ")), Normal)]
  {
    var lines := SplitOn(text, '\n');
    var rows := Rows(lines);
    assert Texts(rows) == StripAll(lines);
    RegularLinesParagraph(rows, ConvertInlineMarkdown);
  }

  /** A line that is buffered into the current paragraph */
  predicate IsRegular(line: String)
  {
    Classify(line).TextLine?
  }

  /** The stripped form of every line */
  function StripAll(lines: seq<String>): (r: seq<String>)
    ensures |r| == |lines|
    ensures forall k :: 0 <= k < |lines| ==> r[k] == Strip(lines[k])
  {
    seq(|lines|, k requires 0 <= k < |lines| => Strip(lines[k]))
  }

  // ---------------------------------------------------------------------
  // Candidate name fallback

  /** Recovered names that are rejected as common words */
  const RejectedNames: seq<String> := ["candidate", "resume", "cv", "name", "unknown"]

  /** Words marking a resume line as a header or label */
  const HeaderWords: seq<String> := ["resume", "curriculum", "vitae", "cv", "profile", "contact", "email", "phone"]

  /** The default name */
  const DefaultName: String := "Candidate"

  /** `[a-z]*` at i: the number of lower-case letters from i on */
  function LowerRun(s: String, i: nat): (n: nat)
    decreases |s| - i
    ensures n == 0 || i + n <= |s|
  {
    if i < |s| && IsLower(s[i]) then 1 + LowerRun(s, i + 1) else 0
  }

  /** `[a-zA-Z]*` at i: the number of letters from i on */
  function LetterRun(s: String, i: nat): (n: nat)
    decreases |s| - i
    ensures n == 0 || i + n <= |s|
  {
    if i < |s| && IsAlpha(s[i]) then 1 + LetterRun(s, i + 1) else 0
  }

  /** `\s*` at i, the white space between name words */
  function GapRun(s: String, i: nat): (n: nat)
    decreases |s| - i
    ensures n == 0 || i + n <= |s|
  {
    if i < |s| && IsSpace(s[i]) then 1 + GapRun(s, i + 1) else 0
  }

  /** The gap is the maximal run of white space. */
  lemma {:induction false} GapRunIsSpaceRun(s: String, i: nat)
    decreases |s| - i
    ensures GapRun(s, i) == SpaceRun(s, i)
  {
    if i < |s| {
      GapRunIsSpaceRun(s, i + 1);
    }
  }

  /** Both are the maximal runs of their letters. */
  lemma {:induction false} LetterRunsAreRuns(s: String, i: nat)
    decreases |s| - i
    ensures LowerRun(s, i) == RunLength(s, i, IsLower)
    ensures LetterRun(s, i) == RunLength(s, i, IsAlpha)
  {
    if i < |s| {
      LetterRunsAreRuns(s, i + 1);
    }
  }

  /** `[A-Z][a-z]+` at j: the length of the word.  Ignoring case it is a run of
      at least two letters; otherwise a capital followed by lower-case letters. */
  function NameWordAt(s: String, j: nat, ignoreCase: bool): (r: Option<nat>)
    ensures r.Some? ==> 2 <= r.value && j + r.value <= |s|
  {
    if ignoreCase then
      var n := LetterRun(s, j);
      if n >= 2 then Some(n) else None
    else if j < |s| && IsUpper(s[j]) then
      var n := LowerRun(s, j + 1);
      if n >= 1 then Some(1 + n) else None
    else None
  }

  /** A name word is the whole run of letters there: ignoring case, at least two
      letters; otherwise a capital and then every lower-case letter that follows. */
  lemma NameWordLetters(s: String, j: nat, ignoreCase: bool)
    ensures NameWordAt(s, j, ignoreCase).Some? ==>
      var e := j + NameWordAt(s, j, ignoreCase).value;
      (forall k :: j <= k < e ==> IsAlpha(s[k])) && (e == |s| || !IsAlpha(s[e]) || !ignoreCase)
    ensures ignoreCase ==> (NameWordAt(s, j, true).Some? <==> RunLength(s, j, IsAlpha) >= 2)
    ensures !ignoreCase ==> (NameWordAt(s, j, false).Some? <==>
      j + 1 < |s| && IsUpper(s[j]) && IsLower(s[j + 1]))
    ensures !ignoreCase && NameWordAt(s, j, false).Some? ==>
      var e := j + NameWordAt(s, j, false).value;
      (forall k :: j < k < e ==> IsLower(s[k])) && (e == |s| || !IsLower(s[e]))
  {
    LetterRunsAreRuns(s, j);
    LetterRunsAreRuns(s, j + 1);
  }

  /** s[j..e] is n name words separated by white space */
  ghost predicate NameWords(s: String, j: nat, e: nat, n: nat, ignoreCase: bool)
    decreases n
  {
    NameWordAt(s, j, ignoreCase).Some? &&
    var a := j + NameWordAt(s, j, ignoreCase).value;
    (n == 1 && e == a) ||
    (n > 1 && GapRun(s, a) > 0 && NameWords(s, a + GapRun(s, a), e, n - 1, ignoreCase))
  }

  /** A name word, white space and n name words are n + 1 name words. */
  lemma NameWordsCons(s: String, j: nat, a: nat, w: nat, e: nat, n: nat, ignoreCase: bool)
    requires NameWordAt(s, j, ignoreCase) == Some(a)
    requires w == GapRun(s, j + a) && w > 0 && NameWords(s, j + a + w, e, n, ignoreCase)
    ensures NameWords(s, j, e, n + 1, ignoreCase)
  {
  }

  /** `[A-Z][a-z]+(?:\s+[A-Z][a-z]+){0,k}` at j, the group taken greedily: the
      end of the match and the number of words in it.  A shorter white-space
      run would leave a space where a word must start, so stopping where the
      greedy group fails is the only reading. */
  function NameRun(s: String, j: nat, k: nat, ignoreCase: bool): (r: Option<(nat, nat)>)
    decreases k
    ensures r.Some? <==> NameWordAt(s, j, ignoreCase).Some?
    ensures r.Some? ==> j < r.value.0 <= |s| && 1 <= r.value.1 <= k + 1
  {
    var first := NameWordAt(s, j, ignoreCase);
    if first.None? then None
    else
      var a := first.value;
      var w := GapRun(s, j + a);
      var rest := if k > 0 && w > 0 then NameRun(s, j + a + w, k - 1, ignoreCase) else None;
      if rest.Some? then
        Some((rest.value.0, rest.value.1 + 1))
      else Some((j + a, 1))
  }

  /** The greedy match is name words separated by white space, as many as it counts. */
  lemma {:induction false} NameRunWords(s: String, j: nat, k: nat, e: nat, n: nat, ignoreCase: bool)
    requires NameRun(s, j, k, ignoreCase) == Some((e, n))
    decreases k
    ensures NameWords(s, j, e, n, ignoreCase)
  {
    var a := NameWordAt(s, j, ignoreCase).value;
    var w := GapRun(s, j + a);
    if k > 0 && w > 0 && NameRun(s, j + a + w, k - 1, ignoreCase).Some? {
      var rest := NameRun(s, j + a + w, k - 1, ignoreCase).value;
      NameRunCons(s, j, k, a, w, rest.0, rest.1, ignoreCase);
      NameRunWords(s, j + a + w, k - 1, rest.0, rest.1, ignoreCase);
      NameWordsCons(s, j, a, w, rest.0, rest.1, ignoreCase);
    } else {
      NameRunLast(s, j, k, a, ignoreCase);
    }
  }

  /** `[A-Z][a-z]+(?:\s+[A-Z][a-z]+){1,3}` at j: the end of the name.  Each
      word is a maximal letter run, so the greedy reading is the only one. */
  function FullNameAt(s: String, j: nat, ignoreCase: bool): (r: Option<nat>)
    ensures r.Some? ==> j + 2 <= r.value <= |s|
    // one name word, then one to three more, each after white space: two to four words
    ensures r.Some? ==> exists n :: 2 <= n <= 4 && NameWords(s, j, r.value, n, ignoreCase)
  {
    match NameRun(s, j, 3, ignoreCase)
    case Some(run) => NameRunWords(s, j, 3, run.0, run.1, ignoreCase); if run.1 >= 2 then Some(run.0) else None
    case None => None
  }

  /** The end of `Name|Candidate|Full\s+Name` at i, ignoring case */
  function FieldLabelEnd(s: String, i: nat): (r: Option<nat>)
    ensures r.Some? ==> i < r.value <= |s|
  {
    if StartsAtCI(s, i, "name") then Some(i + 4)
    else if StartsAtCI(s, i, "candidate") then Some(i + 9)
    else
      var w := SpaceRun(s, i + 4);
      if StartsAtCI(s, i, "full") && w > 0 && StartsAtCI(s, i + 4 + w, "name") then Some(i + 8 + w) else None
  }

  /** Where the value of a `<label>\s*[:\-]\s*` field at i starts */
  function FieldValueStart(s: String, i: nat): (r: Option<nat>)
    ensures r.Some? ==> i < r.value <= |s|
  {
    match FieldLabelEnd(s, i)
    case Some(a) =>
      var j := a + SpaceRun(s, a);
      if j < |s| && (s[j] == ':' || s[j] == '-') then Some(j + 1 + SpaceRun(s, j + 1)) else None
    case None => None
  }

  /** Where the value of a `\*\*Name\*\*\s*[:\-]?\s*` field at i starts */
  function BoldFieldValueStart(s: String, i: nat): (r: Option<nat>)
    ensures r.Some? ==> i < r.value <= |s|
  {
    if StartsAtCI(s, i, "**name**") then
      var j := i + 8 + SpaceRun(s, i + 8);
      if j < |s| && (s[j] == ':' || s[j] == '-') then Some(j + 1 + SpaceRun(s, j + 1)) else Some(j)
    else None
  }

  /** First pattern: a labelled field holding two to four name words */
  function FieldNameAt(s: String, i: nat): (r: Option<String>)
    ensures r.Some? ==> |r.value| >= 2
  {
    match FieldValueStart(s, i)
    case Some(j) =>
      (match FullNameAt(s, j, true)
       case Some(e) => Some(s[j..e])
       case None => None)
    case None => None
  }

  predicate IsLetterOrSpace(c: char) { IsAlpha(c) || IsSpace(c) }

  /** Second pattern: a labelled field holding a letter and then letters and
      spaces (`[A-Z][A-Z\s]+`, ignoring case) */
  function CapsFieldNameAt(s: String, i: nat): (r: Option<String>)
    ensures r.Some? ==> |r.value| >= 2 && IsAlpha(r.value[0])
  {
    match FieldValueStart(s, i)
    case Some(j) =>
      if j < |s| && IsAlpha(s[j]) && RunLength(s, j + 1, IsLetterOrSpace) >= 1 then
        Some(s[j..j + 1 + RunLength(s, j + 1, IsLetterOrSpace)])
      else None
    case None => None
  }

  /** Third pattern: a markdown-bold "Name" field holding two to four words */
  function BoldNameAt(s: String, i: nat): (r: Option<String>)
    ensures r.Some? ==> |r.value| >= 2
  {
    match BoldFieldValueStart(s, i)
    case Some(j) =>
      (match FullNameAt(s, j, true)
       case Some(e) => Some(s[j..e])
       case None => None)
    case None => None
  }

  /** A captured name, stripped, unless it is one of the rejected words */
  function Accept(found: Option<String>): (r: Option<String>)
    ensures r.Some? ==> found.Some? && r.value == Strip(found.value) && Lower(r.value) !in RejectedNames
    ensures found.Some? && Lower(Strip(found.value)) !in RejectedNames ==> r.Some?
  {
    if found.Some? && Lower(Strip(found.value)) !in RejectedNames then Some(Strip(found.value)) else None
  }

  /** The three field patterns in order over one text; a pattern whose match is
      rejected gives way to the next one. */
  function NameFromSource(source: String): (r: Option<String>)
    ensures r.Some? ==> Lower(r.value) !in RejectedNames
    ensures r.Some? ==> (r == Accept(Search(source, FieldNameAt))
                      || r == Accept(Search(source, CapsFieldNameAt))
                      || r == Accept(Search(source, BoldNameAt)))
    ensures Accept(Search(source, FieldNameAt)).Some? ==> r == Accept(Search(source, FieldNameAt))
    ensures Accept(Search(source, FieldNameAt)).None? && Accept(Search(source, CapsFieldNameAt)).Some? ==>
              r == Accept(Search(source, CapsFieldNameAt))
    ensures Accept(Search(source, FieldNameAt)).None? && Accept(Search(source, CapsFieldNameAt)).None? ==>
              r == Accept(Search(source, BoldNameAt))
    ensures r.None? <==> Accept(Search(source, FieldNameAt)).None? && Accept(Search(source, CapsFieldNameAt)).None? &&
                         Accept(Search(source, BoldNameAt)).None?
  {
    var first := Accept(Search(source, FieldNameAt));
    if first.Some? then first
    else
      var second := Accept(Search(source, CapsFieldNameAt));
      if second.Some? then second else Accept(Search(source, BoldNameAt))
  }

  /** What f yields for the first element it yields anything for */
  function FirstFound<T>(xs: seq<T>, f: T -> Option<String>): (r: Option<String>)
    ensures r.Some? ==> exists k :: 0 <= k < |xs| && f(xs[k]) == r && forall j :: 0 <= j < k ==> f(xs[j]).None?
    ensures r.None? ==> forall k :: 0 <= k < |xs| ==> f(xs[k]).None?
  {
    if |xs| == 0 then None
    else if f(xs[0]).Some? then f(xs[0])
    else
      var rest := FirstFound(xs[1..], f);
      assert forall k :: 1 <= k < |xs| ==> xs[k] == xs[1..][k - 1];
      if rest.Some? then
        var k :| 0 <= k < |xs[1..]| && f(xs[1..][k]) == rest && forall j :: 0 <= j < k ==> f(xs[1..][j]).None?;
        assert f(xs[k + 1]) == rest;
        rest
      else rest
  }

  /** The name the field patterns find in a source; an empty source is skipped. */
  function SourceName(source: String): Option<String>
  {
    if source == [] then None else NameFromSource(source)
  }

  /** The sources in order, empty ones skipped; the first that yields a name wins. */
  function NameFromSources(sources: seq<String>): (r: Option<String>)
    ensures r.Some? ==> exists k :: 0 <= k < |sources| && sources[k] != [] && NameFromSource(sources[k]) == r
                              && forall j :: 0 <= j < k ==> sources[j] == [] || NameFromSource(sources[j]).None?
    ensures r.None? ==> forall k :: 0 <= k < |sources| && sources[k] != [] ==> NameFromSource(sources[k]).None?
  {
    FirstFound(sources, SourceName)
  }

  /** The non-empty images under f, in order */
  function NonEmptyImages<T>(xs: seq<T>, f: T -> String): (r: seq<String>)
    ensures |r| <= |xs|
    ensures forall x :: x in r ==> x != []
    ensures forall i :: 0 <= i < |r| ==> exists k :: 0 <= k < |xs| && r[i] == f(xs[k])
    ensures forall k :: 0 <= k < |xs| && f(xs[k]) != [] ==> f(xs[k]) in r
  {
    if |xs| == 0 then []
    else
      var rest := NonEmptyImages(xs[1..], f);
      assert forall k :: 1 <= k < |xs| ==> xs[k] == xs[1..][k - 1];
      if f(xs[0]) == [] then rest
      else
        var r := [f(xs[0])] + rest;
        assert forall i :: 1 <= i < |r| ==> r[i] == rest[i - 1];
        r
  }

  /** Images of a concatenation are the images of its parts, concatenated: the order is kept. */
  lemma {:induction false} NonEmptyImagesAppend<T>(xs: seq<T>, ys: seq<T>, f: T -> String)
    ensures NonEmptyImages(xs + ys, f) == NonEmptyImages(xs, f) + NonEmptyImages(ys, f)
  {
    if |xs| == 0 {
      assert xs + ys == ys;
    } else {
      assert (xs + ys)[0] == xs[0];
      assert (xs + ys)[1..] == xs[1..] + ys;
      NonEmptyImagesAppend(xs[1..], ys, f);
      if f(xs[0]) != [] {
        assert [f(xs[0])] + NonEmptyImages(xs[1..], f) + NonEmptyImages(ys, f)
            == [f(xs[0])] + (NonEmptyImages(xs[1..], f) + NonEmptyImages(ys, f));
      }
    }
  }

  /** The stripped non-blank lines, in order */
  function NonBlankLines(lines: seq<String>): (r: seq<String>)
    ensures |r| <= |lines|
    ensures forall x :: x in r ==> x != []
    ensures forall i :: 0 <= i < |r| ==> exists k :: 0 <= k < |lines| && r[i] == Strip(lines[k])
    ensures forall k :: 0 <= k < |lines| && Strip(lines[k]) != [] ==> Strip(lines[k]) in r
  {
    NonEmptyImages(lines, Strip)
  }

  /** Lines are kept in their order: the lines of a concatenation are those of
      its parts, and one line gives itself stripped, or nothing when blank. */
  lemma NonBlankLinesOrder(a: seq<String>, b: seq<String>, line: String)
    ensures NonBlankLines(a + b) == NonBlankLines(a) + NonBlankLines(b)
    ensures NonBlankLines([line]) == if Strip(line) == [] then [] else [Strip(line)]
  {
    NonEmptyImagesAppend(a, b, Strip);
  }

  /** The line mentions one of the header words, ignoring case */
  predicate IsHeaderLine(line: String)
  {
    exists k :: 0 <= k < |HeaderWords| && ContainsCI(line, HeaderWords[k])
  }

  /** Every word is capitalised and otherwise lower case */
  predicate AllCapitalised(words: seq<String>)
  {
    forall w :: w in words ==> |w| > 0 && IsUpper(w[0]) && IsLowerText(w[1..])
  }

  /** What the line heuristic takes from one line, if anything */
  function NameFromLine(line: String): (r: Option<String>)
    ensures r.Some? ==> !IsHeaderLine(line)
    ensures r.Some? ==> r.value == line || r.value == Title(line) || r.value == Join(Words(line), " ")
  {
    if IsHeaderLine(line) then None
    else if FullNameAt(line, 0, false) == Some(|line|) then Some(line)
    else if IsUpperText(line) && 2 <= |Words(line)| <= 4 && |line| <= 50 then Some(Title(line))
    else
      var words := Words(line);
      if 2 <= |words| <= 4 && AllCapitalised(words) && (forall w :: w in words ==> 2 <= |w| <= 20) then
        Some(Join(words, " "))
      else None
  }

  /** `[A-Z][a-z]+`: a capital followed by at least one lower-case letter */
  predicate IsNameWord(w: String)
  {
    |w| >= 2 && IsUpper(w[0]) && forall k :: 1 <= k < |w| ==> IsLower(w[k])
  }

  /** A name word at j followed by white space or the end of the text is read whole. */
  lemma NameWordRead(s: String, j: nat, w: String)
    requires IsNameWord(w) && j + |w| <= |s| && s[j..j + |w|] == w
    requires j + |w| == |s| || IsSpace(s[j + |w|])
    ensures NameWordAt(s, j, false) == Some(|w|)
  {
    assert s[j] == w[0];
    assert forall k :: j + 1 <= k < j + |w| ==> s[k] == w[k - j];
    RunLengthExact(s, j + 1, |w| - 1, IsLower);
    LetterRunsAreRuns(s, j + 1);
  }

  /** Name words joined by single spaces, with no more than k + 1 of them, are
      matched greedily to the end: the match ends the text and counts them all. */
  lemma {:induction false} NameRunJoined(s: String, j: nat, ws: seq<String>, k: nat)
    requires 1 <= |ws| <= k + 1 && forall i :: 0 <= i < |ws| ==> IsNameWord(ws[i])
    requires j <= |s| && s[j..] == Join(ws, " ")
    decreases |ws|
    ensures NameRun(s, j, k, false) == Some((|s|, |ws|))
  {
    var a := |ws[0]|;
    if |ws| == 1 {
      JoinedLast(s, j, ws);
      NameRunLast(s, j, k, a, false);
      assert ((j + a) as nat, 1) == (|s|, |ws|);
    } else {
      JoinedStep(s, j, ws);
      var tail := ws[1..];
      var n := |tail|;
      assert n + 1 == |ws|;
      NameRunJoined(s, j + a + 1, tail, k - 1);
      NameRunCons(s, j, k, a, 1, |s|, n, false);
    }
  }

  /** One name word is read whole and ends the text. */
  lemma JoinedLast(s: String, j: nat, ws: seq<String>)
    requires |ws| == 1 && IsNameWord(ws[0])
    requires j <= |s| && s[j..] == Join(ws, " ")
    ensures j + |ws[0]| == |s| && NameWordAt(s, j, false) == Some(|ws[0]|) && GapRun(s, j + |ws[0]|) == 0
  {
    assert s[j..] == ws[0];
    NameWordRead(s, j, ws[0]);
  }

  /** Of two or more joined name words the first is read whole, then one space,
      and the rest of the text is the others joined. */
  lemma JoinedStep(s: String, j: nat, ws: seq<String>)
    requires |ws| >= 2 && forall i :: 0 <= i < |ws| ==> IsNameWord(ws[i])
    requires j <= |s| && s[j..] == Join(ws, " ")
    ensures NameWordAt(s, j, false) == Some(|ws[0]|) && GapRun(s, j + |ws[0]|) == 1
    ensures j + |ws[0]| + 1 <= |s| && s[j + |ws[0]| + 1..] == Join(ws[1..], " ")
  {
    var w := ws[0];
    var rest := Join(ws[1..], " ");
    JoinFirst(ws);
    SuffixSplit(s, j, w, rest);
    assert IsNameWord(w);
    NameWordRead(s, j, w);
    assert !IsSpace(s[j + |w| + 1]);
    RunLengthExact(s, j + |w|, 1, IsSpace);
  }

  /** Joining two or more name words puts the first, a space, then the rest,
      which opens with the second word's capital. */
  lemma JoinFirst(ws: seq<String>)
    requires |ws| >= 2 && forall i :: 0 <= i < |ws| ==> IsNameWord(ws[i])
    ensures Join(ws, " ") == ws[0] + " " + Join(ws[1..], " ")
    ensures |Join(ws[1..], " ")| > 0 && IsUpper(Join(ws[1..], " ")[0])
  {
    assert IsNameWord(ws[1]);
    var rest := Join(ws[1..], " ");
    if |ws| == 2 {
      assert rest == ws[1];
    } else {
      assert rest == ws[1] + " " + Join(ws[2..], " ");
      assert rest[0] == ws[1][0];
    }
  }

  /** A suffix made of a word, a space and the rest splits at those places. */
  lemma SuffixSplit(s: String, j: nat, w: String, rest: String)
    requires j <= |s| && s[j..] == w + " " + rest && |rest| > 0
    ensures j + |w| + 1 < |s| && s[j..j + |w|] == w && s[j + |w|] == ' '
    ensures s[j + |w| + 1..] == rest && s[j + |w| + 1] == rest[0]
  {
    assert s[j..][..|w|] == w;
    assert s[j..][|w|] == ' ';
    assert s[j..][|w| + 1..] == rest;
  }

  /** A name word the greedy group cannot extend is a match of one word. */
  lemma NameRunLast(s: String, j: nat, k: nat, a: nat, ignoreCase: bool)
    requires NameWordAt(s, j, ignoreCase) == Some(a)
    requires !(k > 0 && GapRun(s, j + a) > 0 && NameRun(s, j + a + GapRun(s, j + a), k - 1, ignoreCase).Some?)
    ensures NameRun(s, j, k, ignoreCase) == Some(((j + a) as nat, 1))
    ensures NameWords(s, j, j + a, 1, ignoreCase)
  {
  }

  /** A name word, white space and a greedy match of n words are a greedy match of n + 1. */
  lemma NameRunCons(s: String, j: nat, k: nat, a: nat, gap: nat, e: nat, n: nat, ignoreCase: bool)
    requires NameWordAt(s, j, ignoreCase) == Some(a) && gap == GapRun(s, j + a)
    requires k > 0 && gap > 0 && NameRun(s, j + a + gap, k - 1, ignoreCase) == Some((e, n))
    ensures NameRun(s, j, k, ignoreCase) == Some((e, n + 1))
  {
  }

  /** The first rule: two to four name words joined by single spaces are the
      name as they stand, unless the line reads as a header. */
  lemma NameLineAccepted(ws: seq<String>)
    requires 2 <= |ws| <= 4 && forall i :: 0 <= i < |ws| ==> IsNameWord(ws[i])
    requires !IsHeaderLine(Join(ws, " "))
    ensures NameFromLine(Join(ws, " ")) == Some(Join(ws, " "))
  {
    var line := Join(ws, " ");
    assert line[0..] == line;
    NameRunJoined(line, 0, ws, 3);
    assert FullNameAt(line, 0, false) == Some(|line|);
  }

  /** The second rule: a line in capitals of two to four words and at most 50
      characters is title-cased; the first rule never takes it, since a name
      word needs a lower-case letter. */
  lemma UpperLineTitled(line: String)
    requires !IsHeaderLine(line) && IsUpperText(line)
    requires 2 <= |Words(line)| <= 4 && |line| <= 50
    ensures NameFromLine(line) == Some(Title(line))
  {
    UpperNoFullName(line);
  }

  /** An all-capitals line has no name word at its start, so no full name. */
  lemma UpperNoFullName(line: String)
    requires IsUpperText(line)
    ensures FullNameAt(line, 0, false).None?
  {
    NameWordLetters(line, 0, false);
    if |line| > 1 {
      assert !IsLower(line[1]);
    }
    assert NameRun(line, 0, 3, false).None?;
  }

  /** The third rule: two to four capitalised words of two to twenty characters
      are joined by single spaces, unless the first rule already took the line
      as it stands; the second never does, as the words have lower-case letters. */
  lemma CapitalisedLineJoined(line: String)
    requires !IsHeaderLine(line)
    requires 2 <= |Words(line)| <= 4 && AllCapitalised(Words(line))
    requires forall w :: w in Words(line) ==> 2 <= |w| <= 20
    ensures NameFromLine(line) ==
      if FullNameAt(line, 0, false) == Some(|line|) then Some(line) else Some(Join(Words(line), " "))
  {
    CapitalisedNotUpper(line);
  }

  /** A line whose first word is capitalised has a lower-case letter, so it is
      not all capitals. */
  lemma CapitalisedNotUpper(line: String)
    requires |Words(line)| > 0 && AllCapitalised(Words(line))
    ensures !IsUpperText(line)
  {
    var w := Words(line)[0];
    assert w in Words(line);
    var tail := w[1..];
    var i :| 0 <= i < |tail| && IsAlpha(tail[i]);
    assert IsLower(w[i + 1]);
    assert w[i + 1] in w;
    WordsFromText(line);
    assert w[i + 1] in line;
  }

  /** The first line the heuristic accepts */
  function NameFromLines(lines: seq<String>): (r: Option<String>)
    ensures r.Some? ==> exists k :: 0 <= k < |lines| && NameFromLine(lines[k]) == r
                              && forall j :: 0 <= j < k ==> NameFromLine(lines[j]).None?
    ensures r.None? ==> forall k :: 0 <= k < |lines| ==> NameFromLine(lines[k]).None?
  {
    FirstFound(lines, NameFromLine)
  }

  /** At most the first n elements */
  function Take<T>(xs: seq<T>, n: nat): (r: seq<T>)
    ensures |r| <= n && |r| <= |xs| && r == xs[..|r|]
    ensures |xs| >= n ==> |r| == n
  {
    if |xs| <= n then xs else xs[..n]
  }

  /** The resume lines the heuristic looks at: the first ten non-blank ones */
  function LinesToScan(rawResume: String): seq<String>
  {
    Take(NonBlankLines(SplitOn(rawResume, '\n')), 10)
  }

  /** `_extract_candidate_name`: the stored name, else the field patterns over
      the structured info, the resume and the evaluation, else the first
      name-like line among the first ten, else "Candidate". */
  function ExtractCandidateName(l1: ResumeEvaluator.Level1Result): (r: String)
    ensures l1.candidateName != [] && Lower(l1.candidateName) != "candidate" ==> r == l1.candidateName
    ensures (l1.candidateName == [] || Lower(l1.candidateName) == "candidate") &&
            NameFromSources([l1.structuredInfo, l1.rawResume, l1.evaluation]).Some? ==>
              r == NameFromSources([l1.structuredInfo, l1.rawResume, l1.evaluation]).value && Lower(r) !in RejectedNames
    ensures (l1.candidateName == [] || Lower(l1.candidateName) == "candidate") &&
            NameFromSources([l1.structuredInfo, l1.rawResume, l1.evaluation]).None? &&
            l1.rawResume != [] && NameFromLines(LinesToScan(l1.rawResume)).Some? ==>
              r == NameFromLines(LinesToScan(l1.rawResume)).value &&
              exists k :: 0 <= k < |LinesToScan(l1.rawResume)| && k < 10 && NameFromLine(LinesToScan(l1.rawResume)[k]) == Some(r)
    ensures (l1.candidateName == [] || Lower(l1.candidateName) == "candidate") &&
            NameFromSources([l1.structuredInfo, l1.rawResume, l1.evaluation]).None? &&
            (l1.rawResume == [] || NameFromLines(LinesToScan(l1.rawResume)).None?) ==>
              r == DefaultName
  {
    if l1.candidateName != [] && Lower(l1.candidateName) != "candidate" then l1.candidateName
    else
      match NameFromSources([l1.structuredInfo, l1.rawResume, l1.evaluation])
      case Some(name) => name
      case None =>
        if l1.rawResume != [] then
          match NameFromLines(LinesToScan(l1.rawResume))
          case Some(name) => name
          case None => DefaultName
        else DefaultName
  }
}
