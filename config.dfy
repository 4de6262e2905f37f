/** The parser's fixed configuration: the labelled fields of a post, the anchor
    that starts a post, and the phrases and noise lines the cleaner deletes. */
module Config {
  import opened Regex

  /** A declared field: its column key and the prompt pattern that precedes its answer. */
  datatype Label = Label(key: string, pattern: Pattern)

  /** A literal word, matched case-insensitively. */
  function Word(s: string): (p: Pattern)
    ensures |p| == |s|
    ensures forall i :: 0 <= i < |s| ==> p[i] == Char(s[i])
  {
    seq(|s|, i requires 0 <= i < |s| => Char(s[i]))
  }

  /** Words written with single spaces, each space standing for `\s+`. */
  function Phrase(s: string): (p: Pattern)
    ensures |p| == |s|
    ensures forall i :: 0 <= i < |s| ==> p[i] == if s[i] == ' ' then Spaces1 else Char(s[i])
  {
    seq(|s|, i requires 0 <= i < |s| => if s[i] == ' ' then Spaces1 else Char(s[i]))
  }

  /** `Your\s+preferred\s+name\s*:` */
  const NamePrompt: Pattern := Phrase("Your preferred name") + [Spaces0, Char(':')]

  /** `Your\s+preferred\s+activity\s*N\s*:` */
  function ActivityPrompt(n: char): Pattern {
    Phrase("Your preferred activity") + [Spaces0, Char(n), Spaces0, Char(':')]
  }

  /** `Tool\s+YOU\s+don'?t\s+want\s+to\s+learn\s+now\s*:` */
  const ToolNotNowPrompt: Pattern :=
    Phrase("Tool YOU don") + [OptChar('\''), Char('t'), Spaces1]
    + Phrase("want to learn now") + [Spaces0, Char(':')]

  /** The only columns of the output, in order. */
  const Labels: seq<Label> := [
    Label("name", NamePrompt),
    Label("activity_1", ActivityPrompt('1')),
    Label("activity_2", ActivityPrompt('2')),
    Label("activity_3", ActivityPrompt('3')),
    Label("tool_not_now", ToolNotNowPrompt)
  ]

  /** The pattern whose every match starts a new post. */
  const BlockAnchor: Pattern := NamePrompt

  /** The two noise-line prefixes (their spaces are literal). */
  const ReplyToPost: Pattern := Word("Reply to post")
  const MarkAsUnread: Pattern := Word("Mark as Unread")

  /** `Why\s+does\s+this\s+tool\s+appeal\s+to\s+YOU\s+for\s+business\s+intelligence\s*:` */
  const WhyAppealPrompt: Pattern :=
    Phrase("Why does this tool appeal") + [Spaces1] + Phrase("to YOU for business intelligence")
    + [Spaces0, Char(':')]

  /** `Why\s+does\s+this\s+tool\s+not\s+seem\s+as\s+important\s+for\s+YOU\s+to\s+learn\s+right\s+now\s*:` */
  const WhyNotNowPrompt: Pattern :=
    Phrase("Why does this tool not seem") + [Spaces1] + Phrase("as important for YOU to learn right now")
    + [Spaces0, Char(':')]

  /** `Tool\s+YOU\s+want\s+to\s+learn\s*:` */
  const ToolWantPrompt: Pattern :=
    Phrase("Tool YOU want to learn") + [Spaces0, Char(':')]

  /** The key whose value `format_name` would rewrite; no declared key equals it. */
  const NameFormattedKey: string := "prenom"

  function Keys(labels: seq<Label>): set<string> {
    set l | l in labels :: l.key
  }

  predicate DistinctKeys(labels: seq<Label>) {
    forall i, j :: 0 <= i < j < |labels| ==> labels[i].key != labels[j].key
  }

  /** The declared keys are exactly the five columns, all distinct, none of
      them the formatted key. */
  lemma {:induction false} LabelKeys()
    ensures |Labels| == 5 && DistinctKeys(Labels)
    ensures forall i :: 0 <= i < |Labels| ==> Labels[i].key != NameFormattedKey
    ensures Keys(Labels) == {"name", "activity_1", "activity_2", "activity_3", "tool_not_now"}
  {
    var ks := ["name", "activity_1", "activity_2", "activity_3", "tool_not_now"];
    var keys := seq(5, i requires 0 <= i < 5 => Labels[i].key);
    assert keys == ks;
    assert |ks[0]| == 4 && |ks[1]| == 10 && |ks[2]| == 10 && |ks[3]| == 10 && |ks[4]| == 12;
    assert ks[1][9] != ks[2][9] && ks[1][9] != ks[3][9] && ks[2][9] != ks[3][9];
    assert |NameFormattedKey| == 6;
    forall i, j | 0 <= i < j < 5 ensures keys[i] != keys[j] {
    }
    assert Keys(Labels) == set i | 0 <= i < 5 :: keys[i];
  }

  /** The label prompts start with a literal. */
  lemma {:induction false} PromptsSolid()
    ensures Solid(NamePrompt) && Solid(ToolNotNowPrompt)
    ensures forall n :: Solid(ActivityPrompt(n))
  {
    assert Phrase("Your preferred name")[0] == Char('Y');
    assert Phrase("Tool YOU don")[0] == Char('T');
    forall n: char ensures Solid(ActivityPrompt(n)) {
      assert Phrase("Your preferred activity")[0] == Char('Y');
    }
  }

  /** The patterns the cleaner deletes start with a literal. */
  lemma {:induction false} CleanerPatternsSolid()
    ensures Solid(ReplyToPost) && Solid(MarkAsUnread)
    ensures Solid(WhyAppealPrompt) && Solid(WhyNotNowPrompt) && Solid(ToolWantPrompt)
  {
    assert Phrase("Tool YOU want to learn")[0] == Char('T');
    assert Phrase("Why does this tool appeal")[0] == Char('W');
    assert Phrase("Why does this tool not seem")[0] == Char('W');
    assert ReplyToPost[0] == Char('R') && MarkAsUnread[0] == Char('M');
  }

  /** Every label pattern starts with a literal, so none matches empty text, and
      the anchor is the first label's prompt. */
  lemma {:induction false} PatternsSolid()
    ensures forall i :: 0 <= i < |Labels| ==> Solid(Labels[i].pattern)
    ensures Solid(BlockAnchor) && Labels[0].pattern == BlockAnchor
  {
    PromptsSolid();
    forall i | 0 <= i < |Labels| ensures Solid(Labels[i].pattern) {
      if i == 0 {
        assert Labels[i].pattern == NamePrompt;
      } else if i == 1 {
        assert Labels[i].pattern == ActivityPrompt('1');
      } else if i == 2 {
        assert Labels[i].pattern == ActivityPrompt('2');
      } else if i == 3 {
        assert Labels[i].pattern == ActivityPrompt('3');
      } else {
        assert Labels[i].pattern == ToolNotNowPrompt;
      }
    }
  }
}
