/** Text primitives shared by the parsers of the hiring pipeline.

    Python's regular expressions and string methods are modelled on ASCII:
    `\d` is 0-9, `\w` is an ASCII letter, digit or '_', `\s` is the ASCII
    whitespace Python recognises, and case-insensitive matching folds only
    A-Z onto a-z.  A pattern "searched" in a text is a matcher applied at
    every position; `FindFrom` picks the leftmost position where it
    succeeds, which is what `re.search` returns. */
module Text {

  import opened Results

  type String = seq<char>

  // ---------------------------------------------------------------------
  // Character classes

  predicate IsDigit(c: char) { '0' <= c <= '9' }
  predicate IsUpper(c: char) { 'A' <= c <= 'Z' }
  predicate IsLower(c: char) { 'a' <= c <= 'z' }
  predicate IsAlpha(c: char) { IsUpper(c) || IsLower(c) }
  predicate IsAlnum(c: char) { IsAlpha(c) || IsDigit(c) }

  /** `\w` */
  predicate IsWordChar(c: char) { IsAlnum(c) || c == '_' }

  /** `\s` and `str.isspace` on ASCII: space, \t \n \v \f \r and \x1c-\x1f */
  predicate IsSpace(c: char) { c == ' ' || '\t' <= c <= '\r' || '\U{1C}' <= c <= '\U{1F}' }

  predicate NotSpace(c: char) { !IsSpace(c) }

  function LowerChar(c: char): (r: char)
    ensures !IsUpper(r)
    ensures IsAlpha(r) <==> IsAlpha(c)
  {
    if IsUpper(c) then (c as int + 32) as char else c
  }

  function UpperChar(c: char): (r: char)
    ensures !IsLower(r)
    ensures IsAlpha(r) <==> IsAlpha(c)
  {
    if IsLower(c) then (c as int - 32) as char else c
  }

  /** `str.lower()` */
  function Lower(s: String): (r: String)
    ensures |r| == |s|
    ensures forall i :: 0 <= i < |s| ==> r[i] == LowerChar(s[i])
  {
    seq(|s|, i requires 0 <= i < |s| => LowerChar(s[i]))
  }

  /** `str.upper()` */
  function Upper(s: String): (r: String)
    ensures |r| == |s|
    ensures forall i :: 0 <= i < |s| ==> r[i] == UpperChar(s[i])
  {
    seq(|s|, i requires 0 <= i < |s| => UpperChar(s[i]))
  }

  /** `str.isupper()`: some cased character and no lower-case one */
  predicate IsUpperText(s: String) {
    (exists i :: 0 <= i < |s| && IsAlpha(s[i])) && forall i :: 0 <= i < |s| ==> !IsLower(s[i])
  }

  /** `str.islower()`: some cased character and no upper-case one */
  predicate IsLowerText(s: String) {
    (exists i :: 0 <= i < |s| && IsAlpha(s[i])) && forall i :: 0 <= i < |s| ==> !IsUpper(s[i])
  }

  /** `str.title()` from a position whose predecessor was (or was not) cased */
  function TitleFrom(s: String, previousCased: bool): (r: String)
    ensures |r| == |s|
    ensures forall i :: 0 <= i < |s| ==> LowerChar(r[i]) == LowerChar(s[i])
  {
    if |s| == 0 then []
    else
      var c := if previousCased then LowerChar(s[0]) else UpperChar(s[0]);
      [c] + TitleFrom(s[1..], IsAlpha(s[0]))
  }

  /** `str.title()` */
  function Title(s: String): String { TitleFrom(s, false) }

  /** `str.capitalize()`: first character upper case, the rest lower case */
  function Capitalize(s: String): String {
    if |s| == 0 then [] else [UpperChar(s[0])] + Lower(s[1..])
  }

  // ---------------------------------------------------------------------
  // Occurrences

  /** s[i..] begins with p */
  predicate StartsAt(s: String, i: nat, p: String) {
    i + |p| <= |s| && forall k :: 0 <= k < |p| ==> s[i + k] == p[k]
  }

  /** s[i..] begins with the lower-case pattern p, ignoring ASCII case */
  predicate StartsAtCI(s: String, i: nat, p: String) {
    i + |p| <= |s| && forall k :: 0 <= k < |p| ==> LowerChar(s[i + k]) == p[k]
  }

  /** Python's `p in s` */
  predicate Contains(s: String, p: String) {
    exists i: nat :: i + |p| <= |s| && StartsAt(s, i, p)
  }

  /** Python's `p in s.lower()` for a lower-case p */
  predicate ContainsCI(s: String, p: String) {
    exists i: nat :: i + |p| <= |s| && StartsAtCI(s, i, p)
  }

  lemma ContainsLower(s: String, p: String)
    ensures Contains(Lower(s), p) <==> ContainsCI(s, p)
  {
    if Contains(Lower(s), p) {
      var i: nat :| i + |p| <= |s| && StartsAt(Lower(s), i, p);
      assert StartsAtCI(s, i, p);
    }
    if ContainsCI(s, p) {
      var i: nat :| i + |p| <= |s| && StartsAtCI(s, i, p);
      assert StartsAt(Lower(s), i, p);
    }
  }

  // ---------------------------------------------------------------------
  // Maximal runs

  /** Length of the longest run of characters satisfying `p` that starts at i:
      what a greedy `[...]*` consumes. */
  function RunLength(s: String, i: nat, p: char -> bool): (n: nat)
    decreases |s| - i
    ensures n == 0 || i + n <= |s|
    ensures forall k :: i <= k < i + n ==> p(s[k])
    ensures i + n < |s| ==> !p(s[i + n])
  {
    if i < |s| && p(s[i]) then 1 + RunLength(s, i + 1, p) else 0
  }

  /** A run of n characters satisfying p that ends the text or is followed by
      one that does not is the maximal run. */
  lemma {:induction false} RunLengthExact(s: String, i: nat, n: nat, p: char -> bool)
    requires i + n <= |s|
    requires forall k :: i <= k < i + n ==> p(s[k])
    requires i + n == |s| || !p(s[i + n])
    decreases n
    ensures RunLength(s, i, p) == n
  {
    if n > 0 {
      RunLengthExact(s, i + 1, n - 1, p);
    }
  }

  /** `\s*` at i */
  function SpaceRun(s: String, i: nat): nat { RunLength(s, i, IsSpace) }

  /** `\d+` at i (zero when no digit is there) */
  function DigitRun(s: String, i: nat): nat { RunLength(s, i, IsDigit) }

  function DigitValue(c: char): nat { if IsDigit(c) then c as int - '0' as int else 0 }

  /** `int(d)` for a string of decimal digits */
  function DigitsValue(d: String): nat
  {
    if |d| == 0 then 0 else DigitsValue(d[..|d| - 1]) * 10 + DigitValue(d[|d| - 1])
  }

  /** Length of the longest suffix of s whose characters satisfy p */
  function RunLengthBack(s: String, p: char -> bool): (n: nat)
    ensures n <= |s|
    ensures forall k :: |s| - n <= k < |s| ==> p(s[k])
    ensures n < |s| ==> !p(s[|s| - n - 1])
  {
    if |s| > 0 && p(s[|s| - 1]) then 1 + RunLengthBack(s[..|s| - 1], p) else 0
  }

  // ---------------------------------------------------------------------
  // Stripping, splitting, joining, replacing

  /** `s.lstrip(chars)` with the set of characters given by p */
  function TrimStart(s: String, p: char -> bool): (r: String)
    ensures |r| == 0 || !p(r[0])
    ensures |r| <= |s|
    ensures r == s[|s| - |r|..]
    ensures forall k :: 0 <= k < |s| - |r| ==> p(s[k])
  {
    s[RunLength(s, 0, p)..]
  }

  /** `s.rstrip(chars)` with the set of characters given by p */
  function TrimEnd(s: String, p: char -> bool): (r: String)
    ensures |r| == 0 || !p(r[|r| - 1])
    ensures |r| <= |s|
    ensures r == s[..|r|]
    ensures forall k :: |r| <= k < |s| ==> p(s[k])
  {
    s[..|s| - RunLengthBack(s, p)]
  }

  /** `s.strip()` */
  function Strip(s: String): (r: String)
    ensures |r| == 0 || (!IsSpace(r[0]) && !IsSpace(r[|r| - 1]))
    ensures |r| <= |s|
    ensures forall x :: x in r ==> x in s
  {
    TrimEnd(TrimStart(s, IsSpace), IsSpace)
  }

  /** Stripping a text that neither begins nor ends with whitespace leaves it as it is. */
  lemma StripNoop(s: String)
    requires |s| == 0 || (!IsSpace(s[0]) && !IsSpace(s[|s| - 1]))
    ensures Strip(s) == s
  {
    assert TrimStart(s, IsSpace) == s;
  }

  lemma StripIdempotent(s: String)
    ensures Strip(Strip(s)) == Strip(s)
  {
    StripNoop(Strip(s));
  }

  /** `s.split()` with no argument: the maximal runs of non-whitespace */
  function Words(s: String): (ws: seq<String>)
    decreases |s|
    ensures forall w :: w in ws ==> |w| > 0 && forall k :: 0 <= k < |w| ==> !IsSpace(w[k])
  {
    var t := TrimStart(s, IsSpace);
    if |t| == 0 then []
    else
      var n := RunLength(t, 0, NotSpace);
      [t[..n]] + Words(t[n..])
  }

  /** Every character of every word comes from the text. */
  lemma {:induction false} WordsFromText(s: String)
    decreases |s|
    ensures forall w, x :: w in Words(s) && x in w ==> x in s
  {
    var t := TrimStart(s, IsSpace);
    if |t| > 0 {
      var n := RunLength(t, 0, NotSpace);
      WordsFromText(t[n..]);
      assert Words(s) == [t[..n]] + Words(t[n..]);
      forall w, x | w in Words(s) && x in w
        ensures x in s
      {
        if w == t[..n] {
          assert x in t;
        } else {
          assert w in Words(t[n..]);
          assert x in t[n..];
          assert x in t;
        }
      }
    }
  }

  /** `sep.join(parts)` */
  function Join(parts: seq<String>, sep: String): String
  {
    if |parts| == 0 then []
    else if |parts| == 1 then parts[0]
    else parts[0] + sep + Join(parts[1..], sep)
  }

  /** `s.split(c)` for a one-character separator */
  function SplitOn(s: String, c: char): (parts: seq<String>)
    decreases |s|
    ensures |parts| >= 1
    ensures forall w :: w in parts ==> c !in w
  {
    var k := RunLength(s, 0, x => x != c);
    if k == |s| then
      assert forall j :: 0 <= j < |s| ==> s[j] != c;
      [s]
    else
      assert forall j :: 0 <= j < k ==> s[j] != c;
      [s[..k]] + SplitOn(s[k + 1..], c)
  }

  /** Splitting on c and joining with c gives back the text. */
  lemma {:induction false} SplitJoin(s: String, c: char)
    decreases |s|
    ensures Join(SplitOn(s, c), [c]) == s
  {
    var k := RunLength(s, 0, x => x != c);
    if k < |s| {
      SplitJoin(s[k + 1..], c);
      var rest := SplitOn(s[k + 1..], c);
      assert SplitOn(s, c) == [s[..k]] + rest;
      assert s == s[..k] + [c] + s[k + 1..];
    }
  }

  /** `s.replace(c, rep)` for a one-character pattern */
  function ReplaceChar(s: String, c: char, rep: String): (r: String)
    ensures c !in rep ==> c !in r
    ensures forall x :: x !in s && x !in rep ==> x !in r
    ensures |rep| == 1 ==> |r| == |s|
  {
    if |s| == 0 then [] else (if s[0] == c then rep else [s[0]]) + ReplaceChar(s[1..], c, rep)
  }

  lemma {:induction false} ReplaceCharAppend(a: String, b: String, c: char, rep: String)
    ensures ReplaceChar(a + b, c, rep) == ReplaceChar(a, c, rep) + ReplaceChar(b, c, rep)
  {
    if |a| > 0 {
      assert (a + b)[1..] == a[1..] + b;
      ReplaceCharAppend(a[1..], b, c, rep);
    } else {
      assert a + b == b;
    }
  }

  /** Replacing a character that does not occur changes nothing. */
  lemma {:induction false} ReplaceCharAbsent(s: String, c: char, rep: String)
    requires c !in s
    ensures ReplaceChar(s, c, rep) == s
  {
    if |s| > 0 {
      ReplaceCharAbsent(s[1..], c, rep);
      assert s == [s[0]] + s[1..];
    }
  }

  /** Characters of s other than those satisfying p, in order */
  function Filter(s: String, p: char -> bool): (r: String)
    ensures |r| <= |s|
    ensures forall k :: 0 <= k < |r| ==> !p(r[k])
    ensures forall x :: x in r ==> x in s
  {
    if |s| == 0 then [] else (if p(s[0]) then [] else [s[0]]) + Filter(s[1..], p)
  }

  // ---------------------------------------------------------------------
  // Leftmost search and left-to-right substitution

  /** The leftmost position at or after `from` where matcher m succeeds. */
  function FindFrom<T>(s: String, from: nat, m: (String, nat) -> Option<T>): (r: Option<nat>)
    decreases |s| + 1 - from
    ensures r.Some? ==> from <= r.value <= |s| && m(s, r.value).Some?
    ensures r.Some? ==> forall q :: from <= q < r.value ==> m(s, q).None?
    ensures r.None? ==> forall q :: from <= q <= |s| ==> m(s, q).None?
  {
    if from > |s| then None
    else if m(s, from).Some? then Some(from)
    else FindFrom(s, from + 1, m)
  }

  /** `re.search`: what m yields at the leftmost position where it succeeds. */
  function Search<T>(s: String, m: (String, nat) -> Option<T>): (r: Option<T>)
    ensures r.None? <==> forall q :: 0 <= q <= |s| ==> m(s, q).None?
    ensures r.Some? ==> exists p :: 0 <= p <= |s| && m(s, p) == r && forall q :: 0 <= q < p ==> m(s, q).None?
  {
    match FindFrom(s, 0, m)
    case Some(p) => m(s, p)
    case None => None
  }

  /** A position where m succeeds, with no success before it, is what the search finds. */
  lemma {:induction false} SearchLeftmost<T>(s: String, m: (String, nat) -> Option<T>, p: nat)
    requires p <= |s| && m(s, p).Some?
    requires forall q :: 0 <= q < p ==> m(s, q).None?
    ensures FindFrom(s, 0, m) == Some(p)
    ensures Search(s, m) == m(s, p)
  {
    var f := FindFrom(s, 0, m);
    assert f.Some?;
    assert f.value == p;
  }

  /** `re.sub` from position i: m(s, i) gives the end of a match starting at i
      and its replacement; unmatched characters are copied and the scan
      resumes after each match.  (Every matcher used here consumes at least one
      character; a match that does not advance is treated as no match.) */
  function SubFrom(s: String, i: nat, m: (String, nat) -> Option<(nat, String)>): String
    decreases |s| - i
  {
    if i >= |s| then []
    else
      match m(s, i)
      case Some((e, rep)) =>
        if i < e <= |s| then rep + SubFrom(s, e, m) else [s[i]] + SubFrom(s, i + 1, m)
      case None => [s[i]] + SubFrom(s, i + 1, m)
  }

  function Sub(s: String, m: (String, nat) -> Option<(nat, String)>): String { SubFrom(s, 0, m) }

  /** With no match at or after i the substitution copies the rest of the text. */
  lemma {:induction false} SubFromNoMatch(s: String, i: nat, m: (String, nat) -> Option<(nat, String)>)
    requires i <= |s|
    requires forall q :: i <= q < |s| ==> m(s, q).None?
    decreases |s| - i
    ensures SubFrom(s, i, m) == s[i..]
  {
    if i < |s| {
      SubFromNoMatch(s, i + 1, m);
      assert s[i..] == [s[i]] + s[i + 1..];
    }
  }

  /** Substituting a matcher that never matches changes nothing. */
  lemma {:induction false} SubNone(s: String, m: (String, nat) -> Option<(nat, String)>)
    requires forall q :: 0 <= q <= |s| ==> m(s, q).None?
    ensures Sub(s, m) == s
  {
    SubFromNoMatch(s, 0, m);
  }

  /** The substitution copies the text up to the leftmost match, emits its
      replacement and goes on after the match. */
  lemma {:induction false} SubFromLeftmost(s: String, i: nat, m: (String, nat) -> Option<(nat, String)>, p: nat)
    requires i <= p < |s|
    requires forall q :: i <= q < p ==> m(s, q).None?
    requires m(s, p).Some? && p < m(s, p).value.0 <= |s|
    decreases p - i
    ensures SubFrom(s, i, m) == s[i..p] + m(s, p).value.1 + SubFrom(s, m(s, p).value.0, m)
  {
    if i < p {
      assert m(s, i).None?;
      assert SubFrom(s, i, m) == [s[i]] + SubFrom(s, i + 1, m);
      SubFromLeftmost(s, i + 1, m, p);
      assert s[i..p] == [s[i]] + s[i + 1..p];
    } else {
      var e := m(s, p).value.0;
      var rep := m(s, p).value.1;
      assert SubFrom(s, p, m) == rep + SubFrom(s, e, m);
    }
  }
}
