/** `clean_raw_text`: five `re.sub` passes over the raw discussion text, then
    `strip()`. Each pass is one `Rule`; all of them share the scan of `re.sub`,
    which tries a match at each position of the original text from left to right,
    replaces a match it finds and resumes where that match ended. */
module Cleaner {
  import opened Wrappers
  import opened Text
  import opened Regex
  import opened Config

  datatype Rule =
    /** `(?im)^\s*(Reply to post.*|Mark as Unread.*)\s*$`, replaced by "" */
    | NoiseLines
    /** `question.*?(?=(?:stop|stop|$))` with IGNORECASE and DOTALL, replaced by "" */
    | QuestionAnswer(question: Pattern, stops: seq<Pattern>)
    /** `\n{3,}`, replaced by two newlines */
    | BlankLineRun

  predicate ValidRule(rule: Rule) {
    rule.QuestionAnswer? ==> Solid(rule.question)
  }

  function Replacement(rule: Rule): string {
    if rule.BlankLineRun? then "\n\n" else ""
  }

  // ---------------------------------------------------------------------------
  // Anchors and runs

  /** `^` under MULTILINE. */
  predicate LineStart(t: string, p: nat)
    requires p <= |t|
  {
    p == 0 || t[p - 1] == '\n'
  }

  /** `$` under MULTILINE. */
  predicate LineEndAt(t: string, k: nat)
    requires k <= |t|
  {
    k == |t| || t[k] == '\n'
  }

  /** `$` without MULTILINE: the end of the text, or just before a final newline. */
  predicate TextEndAt(t: string, k: nat)
    requires k <= |t|
  {
    k == |t| || (k == |t| - 1 && t[k] == '\n')
  }

  /** Where `.*` (no DOTALL) starting at `i` stops: the end of the line. */
  function LineEnd(t: string, i: nat): (k: nat)
    requires i <= |t|
    ensures i <= k <= |t| && LineEndAt(t, k)
    ensures forall m :: i <= m < k ==> t[m] != '\n'
    decreases |t| - i
  {
    if i < |t| && t[i] != '\n' then LineEnd(t, i + 1) else i
  }

  /** Backtracking `\s*` (which spans `[lo, k)`) until `$` holds: the last line end
      in `[lo, k]`. */
  function LastLineEnd(t: string, lo: nat, k: nat): (m: nat)
    requires lo <= k <= |t| && LineEndAt(t, lo)
    ensures lo <= m <= k && LineEndAt(t, m)
    ensures forall j :: m < j <= k ==> !LineEndAt(t, j)
    decreases k
  {
    if LineEndAt(t, k) then k else LastLineEnd(t, lo, k - 1)
  }

  /** The end of the run of newlines that starts at `i`. */
  function NewlineEnd(t: string, i: nat): (k: nat)
    requires i <= |t|
    ensures i <= k <= |t|
    ensures forall m :: i <= m < k ==> t[m] == '\n'
    ensures k == |t| || t[k] != '\n'
    decreases |t| - i
  {
    if i < |t| && t[i] == '\n' then NewlineEnd(t, i + 1) else i
  }

  /** The lookahead `(?=(?:stop|...|$))` holds at `k`. */
  predicate StopAt(stops: seq<Pattern>, t: string, k: nat)
    requires k <= |t|
  {
    TextEndAt(t, k) || exists i :: 0 <= i < |stops| && MatchAt(stops[i], t, k).Some?
  }

  /** Lazy `.*?` under DOTALL followed by the lookahead: the first position from `k`
      where the lookahead holds. */
  function LazyEnd(stops: seq<Pattern>, t: string, k: nat): (e: nat)
    requires k <= |t|
    ensures k <= e <= |t| && StopAt(stops, t, e)
    ensures forall m :: k <= m < e ==> !StopAt(stops, t, m)
    decreases |t| - k
  {
    if StopAt(stops, t, k) then k else LazyEnd(stops, t, k + 1)
  }

  // ---------------------------------------------------------------------------
  // One match attempt of each rule

  /** The noise-line pattern anchored at `p`: a line start, whitespace (across lines),
      one of the two literals, the rest of its line, then whitespace as far as it
      can go while still ending at a line end. */
  function NoiseEnd(t: string, p: nat): (r: Option<nat>)
    requires p <= |t|
    ensures r.Some? ==> p < r.value <= |t| && LineEndAt(t, r.value)
    ensures r.Some? <==> (LineStart(t, p) &&
      (MatchAt(ReplyToPost, t, SpaceEnd(t, p)).Some? || MatchAt(MarkAsUnread, t, SpaceEnd(t, p)).Some?))
  {
    CleanerPatternsSolid();
    if !LineStart(t, p) then None
    else
      var w := SpaceEnd(t, p);
      var lit := if MatchAt(ReplyToPost, t, w).Some? then MatchAt(ReplyToPost, t, w)
                 else MatchAt(MarkAsUnread, t, w);
      match lit
      case None => None
      case Some(a) =>
        var l := LineEnd(t, a);
        Some(LastLineEnd(t, l, SpaceEnd(t, l)))
  }

  /** A pattern of literal characters none of which is a newline. */
  predicate LineLiteral(p: Pattern) {
    forall k :: 0 <= k < |p| ==> p[k].Char? && p[k].c != '\n'
  }

  /** A line literal matches exactly as many characters as it has, and none of
      them is a newline. */
  lemma {:induction false} LineLiteralSpan(p: Pattern, t: string, i: nat)
    requires LineLiteral(p) && i <= |t| && MatchAt(p, t, i).Some?
    ensures MatchAt(p, t, i).value == i + |p| <= |t|
    ensures forall m :: i <= m < i + |p| ==> t[m] != '\n'
    decreases |p|
  {
    if p != [] {
      assert p[0].Char?;
      assert Same(t[i], p[0].c);
      assert LineLiteral(p[1..]) by {
        forall k | 0 <= k < |p[1..]| ensures p[1..][k].Char? && p[1..][k].c != '\n' {
          assert p[1..][k] == p[k + 1];
        }
      }
      LineLiteralSpan(p[1..], t, i + 1);
    }
  }

  /** The two noise literals are line literals. */
  lemma {:induction false} NoiseLiteralsOnOneLine()
    ensures LineLiteral(ReplyToPost) && LineLiteral(MarkAsUnread)
  {
    var r, u := "Reply to post", "Mark as Unread";
    forall k | 0 <= k < |r| ensures r[k] != '\n' {
    }
    forall k | 0 <= k < |u| ensures u[k] != '\n' {
    }
  }

  /** Across newline-free text, `.*` stops at the same line end. */
  lemma {:induction false} LineEndFrom(t: string, i: nat, j: nat)
    requires i <= j <= |t| && forall m :: i <= m < j ==> t[m] != '\n'
    ensures LineEnd(t, i) == LineEnd(t, j)
    decreases j - i
  {
    if i < j {
      LineEndFrom(t, i + 1, j);
    }
  }

  /** What a noise-line match at `p` covers: the whitespace from `p`, the literal
      and the rest of its line up to the line end `l`, then whitespace from `l`
      up to the last line end `e` before the next non-whitespace character. */
  lemma {:induction false} NoiseSpan(t: string, p: nat)
    requires p <= |t| && NoiseEnd(t, p).Some?
    ensures var w := SpaceEnd(t, p); var l := LineEnd(t, w); var e := NoiseEnd(t, p).value;
      (forall m :: w <= m < l ==> t[m] != '\n') &&
      l <= e <= SpaceEnd(t, l) &&
      (forall m :: l <= m < e ==> IsSpace(t[m])) &&
      (forall m :: e < m <= SpaceEnd(t, l) ==> !LineEndAt(t, m))
  {
    var w := SpaceEnd(t, p);
    NoiseLiteralsOnOneLine();
    var lit := if MatchAt(ReplyToPost, t, w).Some? then ReplyToPost else MarkAsUnread;
    assert MatchAt(lit, t, w).Some?;
    LineLiteralSpan(lit, t, w);
    var a := MatchAt(lit, t, w).value;
    LineEndFrom(t, w, a);
  }

  /** The end of the match of `rule` that starts at `p`, if one does. */
  function MatchEnd(rule: Rule, t: string, p: nat): (r: Option<nat>)
    requires ValidRule(rule) && p <= |t|
    ensures r.Some? ==> p + |Replacement(rule)| < r.value <= |t|
    ensures r.Some? && rule.QuestionAnswer? ==>
      MatchAt(rule.question, t, p).Some? && r.value == LazyEnd(rule.stops, t, MatchAt(rule.question, t, p).value)
    ensures rule.QuestionAnswer? && MatchAt(rule.question, t, p).Some? ==> r.Some?
    ensures rule.BlankLineRun? ==> (r.Some? <==> NewlineEnd(t, p) - p >= 3)
    ensures r.Some? && rule.BlankLineRun? ==> r.value == NewlineEnd(t, p)
    ensures rule.NoiseLines? ==> r == NoiseEnd(t, p)
  {
    match rule
    case NoiseLines => NoiseEnd(t, p)
    case QuestionAnswer(question, stops) =>
      (match MatchAt(question, t, p)
       case None => None
       case Some(q) => Some(LazyEnd(stops, t, q)))
    case BlankLineRun =>
      var k := NewlineEnd(t, p);
      if k - p >= 3 then Some(k) else None
  }

  /** `re.sub(pattern, replacement, t)` from position `pos` of `t` on. */
  function Substitute(rule: Rule, t: string, pos: nat): (r: string)
    requires ValidRule(rule) && pos <= |t|
    ensures |r| <= |t| - pos
    decreases |t| - pos
  {
    if pos == |t| then ""
    else
      match MatchEnd(rule, t, pos)
      case Some(e) => Replacement(rule) + Substitute(rule, t, e)
      case None => [t[pos]] + Substitute(rule, t, pos + 1)
  }

  function Sub(rule: Rule, t: string): string
    requires ValidRule(rule)
  {
    Substitute(rule, t, 0)
  }

  const WhyAppeal: Rule := QuestionAnswer(WhyAppealPrompt, [NamePrompt, ToolNotNowPrompt])
  const WhyNotNow: Rule := QuestionAnswer(WhyNotNowPrompt, [NamePrompt, ToolNotNowPrompt])
  const ToolWant: Rule := QuestionAnswer(ToolWantPrompt, [ToolNotNowPrompt, NamePrompt])

  /** The four deletions of `clean_raw_text`, in order: noise lines, then the
      answers to the three questions that are not columns. */
  function Deletions(raw: string): (r: string)
    ensures |r| <= |raw|
  {
    CleanerPatternsSolid();
    var t1 := Sub(NoiseLines, raw);
    var t2 := Sub(WhyAppeal, t1);
    var t3 := Sub(WhyNotNow, t2);
    Sub(ToolWant, t3)
  }

  /** The five substitutions of `clean_raw_text`: the deletions, then the
      collapsing of blank lines. */
  function Passes(raw: string): (r: string)
    ensures |r| <= |raw|
  {
    Sub(BlankLineRun, Deletions(raw))
  }

  /** `clean_raw_text(raw)`: the five passes, then `strip()`. */
  function Clean(raw: string): (r: string)
    ensures |r| <= |raw|
  {
    Strip(Passes(raw))
  }

  /** The cleaned text neither starts nor ends with whitespace. */
  lemma {:induction false} CleanTrimmed(raw: string)
    ensures var r := Clean(raw); r == [] || (!IsSpace(r[0]) && !IsSpace(r[|r| - 1]))
  {
    var p := Passes(raw);
    assert Clean(raw) == Strip(p);
  }

  // ---------------------------------------------------------------------------
  // Properties of the scan

  /** No match anywhere from `pos` on: the text is copied unchanged. */
  lemma {:induction false} SubstituteNoMatch(rule: Rule, t: string, pos: nat)
    requires ValidRule(rule) && pos <= |t|
    requires forall k :: pos <= k < |t| ==> MatchEnd(rule, t, k).None?
    ensures Substitute(rule, t, pos) == t[pos..]
    decreases |t| - pos
  {
    if pos < |t| {
      SubstituteNoMatch(rule, t, pos + 1);
      assert t[pos..] == [t[pos]] + t[pos + 1..];
    }
  }

  /** No match strictly before `p`: the text up to `p` is copied unchanged. */
  lemma {:induction false} SubstitutePrefix(rule: Rule, t: string, pos: nat, p: nat)
    requires ValidRule(rule) && pos <= p <= |t|
    requires forall k :: pos <= k < p ==> MatchEnd(rule, t, k).None?
    ensures Substitute(rule, t, pos) == t[pos..p] + Substitute(rule, t, p)
    decreases p - pos
  {
    if pos < p {
      SubstitutePrefix(rule, t, pos + 1, p);
      assert t[pos..p] == [t[pos]] + t[pos + 1..p];
      AppendAssoc([t[pos]], t[pos + 1..p], Substitute(rule, t, p));
    }
  }

  /** The only match is the one at `p`: `re.sub` replaces exactly the span it
      covers and copies the text on both sides of it. */
  lemma {:induction false} SubSpan(rule: Rule, t: string, p: nat)
    requires ValidRule(rule) && p <= |t| && MatchEnd(rule, t, p).Some?
    requires forall k :: 0 <= k < p ==> MatchEnd(rule, t, k).None?
    requires forall k :: MatchEnd(rule, t, p).value <= k < |t| ==> MatchEnd(rule, t, k).None?
    ensures Sub(rule, t) == t[..p] + Replacement(rule) + t[MatchEnd(rule, t, p).value..]
  {
    var e := MatchEnd(rule, t, p).value;
    SubstitutePrefix(rule, t, 0, p);
    SubstituteNoMatch(rule, t, e);
    assert Substitute(rule, t, p) == Replacement(rule) + t[e..];
    AppendAssoc(t[..p], Replacement(rule), t[e..]);
  }

  /** A question that occurs once loses everything from its prompt up to the
      first later prompt or the end of the text; the rest is kept. */
  lemma {:induction false} QuestionSpan(rule: Rule, t: string, p: nat)
    requires rule.QuestionAnswer? && ValidRule(rule) && p <= |t|
    requires MatchAt(rule.question, t, p).Some?
    requires forall k :: 0 <= k < p ==> MatchAt(rule.question, t, k).None?
    requires forall k :: LazyEnd(rule.stops, t, MatchAt(rule.question, t, p).value) <= k < |t| ==>
      MatchAt(rule.question, t, k).None?
    ensures Sub(rule, t) == t[..p] + t[LazyEnd(rule.stops, t, MatchAt(rule.question, t, p).value)..]
  {
    var e := LazyEnd(rule.stops, t, MatchAt(rule.question, t, p).value);
    assert MatchEnd(rule, t, p) == Some(e);
    forall k | 0 <= k < p ensures MatchEnd(rule, t, k).None? {
      assert MatchAt(rule.question, t, k).None?;
    }
    forall k | e <= k < |t| ensures MatchEnd(rule, t, k).None? {
      assert MatchAt(rule.question, t, k).None?;
    }
    SubSpan(rule, t, p);
    assert t[..p] + "" == t[..p];
  }

  /** A match anywhere from `pos` on: the text gets strictly shorter. */
  lemma {:induction false} SubstituteShrinks(rule: Rule, t: string, pos: nat, k: nat)
    requires ValidRule(rule) && pos <= k < |t|
    requires MatchEnd(rule, t, k).Some?
    ensures |Substitute(rule, t, pos)| < |t| - pos
    decreases |t| - pos
  {
    if MatchEnd(rule, t, pos).None? {
      SubstituteShrinks(rule, t, pos + 1, k);
    }
  }

  /** A pass leaves the text unchanged exactly when its pattern matches nowhere. */
  lemma {:induction false} SubFixpoint(rule: Rule, t: string)
    requires ValidRule(rule)
    ensures Sub(rule, t) == t <==> forall k :: 0 <= k < |t| ==> MatchEnd(rule, t, k).None?
  {
    if forall k :: 0 <= k < |t| ==> MatchEnd(rule, t, k).None? {
      SubstituteNoMatch(rule, t, 0);
    } else {
      var k :| 0 <= k < |t| && MatchEnd(rule, t, k).Some?;
      SubstituteShrinks(rule, t, 0, k);
    }
  }

  /** A question whose prompt occurs nowhere deletes nothing. */
  lemma {:induction false} QuestionAbsent(rule: Rule, t: string)
    requires rule.QuestionAnswer? && ValidRule(rule)
    requires forall k :: 0 <= k < |t| ==> MatchAt(rule.question, t, k).None?
    ensures Sub(rule, t) == t
  {
    SubFixpoint(rule, t);
  }

  /** Text without noise lines is left as it is by the first pass. */
  lemma {:induction false} NoiseAbsent(t: string)
    requires forall k :: 0 <= k < |t| ==> NoiseEnd(t, k).None?
    ensures Sub(NoiseLines, t) == t
  {
    SubFixpoint(NoiseLines, t);
  }

  /** Text without three newlines in a row is left as it is by the last pass. */
  lemma {:induction false} BlankRunAbsent(t: string)
    requires forall k :: 0 <= k < |t| ==> NewlineEnd(t, k) - k < 3
    ensures Sub(BlankLineRun, t) == t
  {
    SubFixpoint(BlankLineRun, t);
  }

  /** Text on which no pass finds anything is only stripped. */
  lemma {:induction false} CleanUntouched(raw: string)
    requires forall k :: 0 <= k < |raw| ==> NoiseEnd(raw, k).None?
    requires forall k :: 0 <= k < |raw| ==> MatchAt(WhyAppealPrompt, raw, k).None?
    requires forall k :: 0 <= k < |raw| ==> MatchAt(WhyNotNowPrompt, raw, k).None?
    requires forall k :: 0 <= k < |raw| ==> MatchAt(ToolWantPrompt, raw, k).None?
    requires forall k :: 0 <= k < |raw| ==> NewlineEnd(raw, k) - k < 3
    ensures Clean(raw) == Strip(raw)
  {
    CleanerPatternsSolid();
    assert Deletions(raw) == raw by {
      NoiseAbsent(raw);
      QuestionAbsent(WhyAppeal, raw);
      QuestionAbsent(WhyNotNow, raw);
      QuestionAbsent(ToolWant, raw);
    }
    assert Passes(raw) == raw by {
      BlankRunAbsent(raw);
    }
  }

  // ---------------------------------------------------------------------------
  // Collapsing blank lines

  /** Three newlines in a row start at `i`. */
  predicate TripleAt(s: string, i: nat)
    requires i + 2 < |s|
  {
    s[i] == '\n' && s[i + 1] == '\n' && s[i + 2] == '\n'
  }

  predicate NoTripleNewline(s: string) {
    forall i: nat :: i + 2 < |s| ==> !TripleAt(s, i)
  }

  /** The number of newlines `s` starts with. */
  function LeadingNewlines(s: string): (n: nat)
    ensures n <= |s| && forall i :: 0 <= i < n ==> s[i] == '\n'
    ensures n == |s| || s[n] != '\n'
    decreases |s|
  {
    if s != [] && s[0] == '\n' then 1 + LeadingNewlines(s[1..]) else 0
  }

  lemma {:induction false} NoTriplePrepend(c: char, s: string)
    requires NoTripleNewline(s)
    requires c == '\n' ==> LeadingNewlines(s) <= 1
    ensures NoTripleNewline([c] + s)
  {
    var r := [c] + s;
    forall i: nat | i + 2 < |r| ensures !TripleAt(r, i) {
      if i > 0 {
        assert r[i] == s[i - 1] && r[i + 1] == s[i] && r[i + 2] == s[i + 1];
        assert !TripleAt(s, i - 1);
      } else if c == '\n' && s[0] == '\n' {
        assert LeadingNewlines(s) == 1 + LeadingNewlines(s[1..]);
      }
    }
  }

  /** After `re.sub(r"\n{3,}", "\n\n", ...)` from `pos`: no three newlines in a row,
      and the output starts with as many newlines as the text at `pos`, but at most two. */
  lemma {:induction false} CollapseLeading(t: string, pos: nat)
    requires pos <= |t|
    ensures var r := Substitute(BlankLineRun, t, pos);
      NoTripleNewline(r) &&
      LeadingNewlines(r) == (if NewlineEnd(t, pos) - pos >= 2 then 2 else NewlineEnd(t, pos) - pos)
    decreases |t| - pos
  {
    var r := Substitute(BlankLineRun, t, pos);
    if pos < |t| {
      match MatchEnd(BlankLineRun, t, pos)
      case Some(e) =>
        CollapseLeading(t, e);
        var rest := Substitute(BlankLineRun, t, e);
        assert NewlineEnd(t, e) == e;
        assert r == ['\n'] + (['\n'] + rest);
        NoTriplePrepend('\n', rest);
        NoTriplePrepend('\n', ['\n'] + rest);
        assert LeadingNewlines(['\n'] + rest) == 1 + LeadingNewlines(rest);
        assert LeadingNewlines(r) == 1 + LeadingNewlines(['\n'] + rest);
      case None =>
        CollapseLeading(t, pos + 1);
        var rest := Substitute(BlankLineRun, t, pos + 1);
        assert r == [t[pos]] + rest;
        if t[pos] == '\n' {
          assert NewlineEnd(t, pos) == NewlineEnd(t, pos + 1);
          NoTriplePrepend('\n', rest);
          assert LeadingNewlines(r) == 1 + LeadingNewlines(rest);
        } else {
          NoTriplePrepend(t[pos], rest);
        }
    }
  }

  lemma {:induction false} NoTripleSlice(s: string, a: nat, b: nat)
    requires a <= b <= |s| && NoTripleNewline(s)
    ensures NoTripleNewline(s[a..b])
  {
    var r := s[a..b];
    forall i: nat | i + 2 < |r| ensures !TripleAt(r, i) {
      assert r[i] == s[a + i] && r[i + 1] == s[a + i + 1] && r[i + 2] == s[a + i + 2];
      assert !TripleAt(s, a + i);
    }
  }

  lemma {:induction false} StripNoTriple(s: string)
    requires NoTripleNewline(s)
    ensures NoTripleNewline(Strip(s))
  {
    NoTripleSlice(s, Lead(s, Whitespace), Lead(s, Whitespace) + |Strip(s)|);
  }

  /** The cleaned text never holds more than one empty line in a row. */
  lemma {:induction false} CleanNoTripleNewline(raw: string)
    ensures NoTripleNewline(Clean(raw))
  {
    CollapseLeading(Deletions(raw), 0);
    StripNoTriple(Passes(raw));
  }
}
