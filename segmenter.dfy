/** `parse_discussion_text`: clean the export, cut it into posts at every match of
    the anchor, and extract one record per post. */
module Segmenter {
  import opened Wrappers
  import opened Text
  import opened Regex
  import opened Config
  import opened Cleaner
  import opened Extractor

  /** Non-empty, non-overlapping spans in increasing order, as `finditer` yields them. */
  predicate Separated(t: string, anchors: seq<Span>) {
    (forall i :: 0 <= i < |anchors| ==> anchors[i].start < anchors[i].end <= |t|) &&
    (forall i :: 0 < i < |anchors| ==> Follows(anchors, i))
  }

  /** Span `i` starts no earlier than span `i - 1` ends. */
  predicate Follows(anchors: seq<Span>, i: nat)
    requires 0 < i < |anchors|
  {
    anchors[i - 1].end <= anchors[i].start
  }

  /** The matches of the anchor in the cleaned text. */
  function Anchors(t: string): (r: seq<Span>)
    ensures Separated(t, r)
  {
    PatternsSolid();
    FindAll(BlockAnchor, t, 0)
  }

  /** Where post `i` ends: where the next anchor match starts, or the end of the text. */
  function BlockEnd(t: string, anchors: seq<Span>, i: nat): (e: nat)
    requires Separated(t, anchors) && i < |anchors|
    ensures anchors[i].end <= e <= |t|
  {
    if i + 1 < |anchors| then assert Follows(anchors, i + 1); anchors[i + 1].start else |t|
  }

  /** `cleaned[start:end]` for post `i`. */
  function RawBlock(t: string, anchors: seq<Span>, i: nat): string
    requires Separated(t, anchors) && i < |anchors|
  {
    t[anchors[i].start..BlockEnd(t, anchors, i)]
  }

  /** `cleaned[start:end].strip()` */
  function Block(t: string, anchors: seq<Span>, i: nat): string
    requires Separated(t, anchors) && i < |anchors|
  {
    Strip(RawBlock(t, anchors, i))
  }

  /** The first `n` posts, stripped. */
  function Blocks(t: string, anchors: seq<Span>, n: nat): (bs: seq<string>)
    requires Separated(t, anchors) && n <= |anchors|
    ensures |bs| == n
  {
    if n == 0 then [] else Blocks(t, anchors, n - 1) + [Block(t, anchors, n - 1)]
  }

  lemma {:induction false} BlocksAt(t: string, anchors: seq<Span>, n: nat, i: nat)
    requires Separated(t, anchors) && i < n <= |anchors|
    ensures Blocks(t, anchors, n)[i] == Block(t, anchors, i)
    decreases n
  {
    if i < n - 1 {
      BlocksAt(t, anchors, n - 1, i);
    }
  }

  /** One record per post, in order. */
  function Records(bs: seq<string>): (rs: seq<map<string, string>>)
    ensures |rs| == |bs|
    decreases |bs|
  {
    if bs == [] then [] else Records(bs[..|bs| - 1]) + [Record(bs[|bs| - 1], Labels)]
  }

  lemma {:induction false} RecordsSnoc(bs: seq<string>, i: nat)
    requires i < |bs|
    ensures Records(bs[..i + 1]) == Records(bs[..i]) + [Record(bs[i], Labels)]
  {
    assert bs[..i + 1][..i] == bs[..i];
  }

  lemma {:induction false} RecordsAt(bs: seq<string>, i: nat)
    requires i < |bs|
    ensures Records(bs)[i] == Record(bs[i], Labels)
    decreases |bs|
  {
    if i < |bs| - 1 {
      RecordsAt(bs[..|bs| - 1], i);
    }
  }

  /** The rows `parse_discussion_text(raw)` returns. */
  function Rows(raw: string): seq<map<string, string>> {
    var t := Clean(raw);
    Records(Blocks(t, Anchors(t), |Anchors(t)|))
  }

  /** The loop of `parse_discussion_text` that cuts the cleaned text at the anchors. */
  method CutBlocks(cleaned: string, anchors: seq<Span>) returns (blocks: seq<string>)
    requires Separated(cleaned, anchors)
    ensures blocks == Blocks(cleaned, anchors, |anchors|)
  {
    blocks := [];
    for i := 0 to |anchors|
      invariant blocks == Blocks(cleaned, anchors, i)
    {
      var start := anchors[i].start;
      var end := if i + 1 < |anchors| then anchors[i + 1].start else |cleaned|;
      assert end == BlockEnd(cleaned, anchors, i);
      var block := Strip(cleaned[start..end]);
      blocks := blocks + [block];
    }
  }

  /** `[_extract_fields_from_block(b, label_patterns) for b in blocks]` */
  method ExtractAll(blocks: seq<string>, labelPatterns: seq<Label>) returns (rows: seq<map<string, string>>)
    requires labelPatterns == Labels
    ensures rows == Records(blocks)
  {
    rows := [];
    for i := 0 to |blocks|
      invariant rows == Records(blocks[..i])
    {
      var row := ExtractFields(blocks[i], labelPatterns);
      RecordsSnoc(blocks, i);
      rows := rows + [row];
    }
    assert blocks[..|blocks|] == blocks;
  }

  method ParseDiscussionText(rawText: string) returns (rows: seq<map<string, string>>)
    ensures rows == Rows(rawText)
  {
    var cleaned := Clean(rawText);
    var labelPatterns := Labels;
    PatternsSolid();
    var anchors := FindAll(BlockAnchor, cleaned, 0);
    assert anchors == Anchors(cleaned);
    if |anchors| == 0 {
      return [];
    }
    var blocks := CutBlocks(cleaned, anchors);
    rows := ExtractAll(blocks, labelPatterns);
  }

  // ---------------------------------------------------------------------------
  // Properties of the posts

  /** One row per anchor match, and no rows exactly when the anchor cannot match
      anywhere in the cleaned text. */
  lemma {:induction false} RowsPerAnchor(raw: string)
    ensures |Rows(raw)| == |Anchors(Clean(raw))|
    ensures Rows(raw) == [] ==> forall k, j :: 0 <= k <= |Clean(raw)| ==> !Derives(BlockAnchor, Clean(raw), k, j)
    ensures Rows(raw) != [] ==> exists k, j :: 0 <= k <= |Clean(raw)| && Derives(BlockAnchor, Clean(raw), k, j)
  {
    PatternsSolid();
    FindAllEmpty(BlockAnchor, Clean(raw));
  }

  /** Every row has exactly the five declared columns. */
  lemma {:induction false} RowKeys(raw: string, i: nat)
    requires i < |Rows(raw)|
    ensures Rows(raw)[i].Keys == {"name", "activity_1", "activity_2", "activity_3", "tool_not_now"}
  {
    var t := Clean(raw);
    var bs := Blocks(t, Anchors(t), |Anchors(t)|);
    RecordsAt(bs, i);
    RecordKeys(bs[i], Labels);
    LabelKeys();
  }

  /** Every value in every row is normalised. */
  lemma {:induction false} RowValuesNormalized(raw: string, i: nat, key: string)
    requires i < |Rows(raw)| && key in Rows(raw)[i]
    ensures Normalized(Rows(raw)[i][key])
  {
    var t := Clean(raw);
    var bs := Blocks(t, Anchors(t), |Anchors(t)|);
    RecordsAt(bs, i);
    RecordNormalized(bs[i], key);
  }

  /** A post begins at its anchor match: stripping only trims its end, and its first
      character is the `Y` (in either case) of "Your preferred name". */
  lemma {:induction false} BlockStartsAtAnchor(t: string, i: nat)
    requires i < |Anchors(t)|
    ensures var a := Anchors(t); var b := Block(t, a, i);
      b != [] && b == t[a[i].start..a[i].start + |b|] && Same(b[0], 'Y')
  {
    var a := Anchors(t);
    var raw := RawBlock(t, a, i);
    PatternsSolid();
    assert MatchAt(BlockAnchor, t, a[i].start) == Some(a[i].end);
    assert BlockAnchor[0] == Char('Y');
    assert Same(t[a[i].start], 'Y');
    assert raw[0] == t[a[i].start];
    assert Lead(raw, Whitespace) == 0;
  }

  /** After its own anchor, no anchor match starts inside a post. */
  lemma {:induction false} OneAnchorPerBlock(t: string, i: nat)
    requires i < |Anchors(t)|
    ensures NoMatchIn(BlockAnchor, t, Anchors(t)[i].end, BlockEnd(t, Anchors(t), i))
  {
    PatternsSolid();
    if i + 1 < |Anchors(t)| {
      FindAllBetween(BlockAnchor, t, 0, i + 1);
    } else {
      FindAllLast(BlockAnchor, t, 0);
    }
  }

  /** In separated spans, no span starts before the first one. */
  lemma {:induction false} FirstStartsFirst(t: string, anchors: seq<Span>, i: nat)
    requires Separated(t, anchors) && i < |anchors|
    ensures anchors[0].start <= anchors[i].start
    decreases i
  {
    if i > 0 {
      FirstStartsFirst(t, anchors, i - 1);
      assert Follows(anchors, i);
    }
  }

  /** The text before the first anchor match holds no anchor match, and every
      anchor match, where its post begins, starts at or after the first one. */
  lemma {:induction false} PreambleDropped(t: string)
    requires Anchors(t) != []
    ensures NoMatchIn(BlockAnchor, t, 0, Anchors(t)[0].start)
    ensures forall i :: 0 <= i < |Anchors(t)| ==> Anchors(t)[0].start <= Anchors(t)[i].start
  {
    PatternsSolid();
    FindAllFirst(BlockAnchor, t, 0);
    forall i | 0 <= i < |Anchors(t)| ensures Anchors(t)[0].start <= Anchors(t)[i].start {
      FirstStartsFirst(t, Anchors(t), i);
    }
  }

  function Concat(parts: seq<string>): string
    decreases |parts|
  {
    if parts == [] then [] else parts[0] + Concat(parts[1..])
  }

  function RawBlocks(t: string, anchors: seq<Span>, from: nat): (bs: seq<string>)
    requires Separated(t, anchors) && from <= |anchors|
    ensures |bs| == |anchors| - from
    decreases |anchors| - from
  {
    if from == |anchors| then [] else [RawBlock(t, anchors, from)] + RawBlocks(t, anchors, from + 1)
  }

  /** The unstripped posts from post `from` on are the cleaned text from that post's
      anchor to the end, cut without loss or overlap. */
  lemma {:induction false} RawBlocksPartition(t: string, anchors: seq<Span>, from: nat)
    requires Separated(t, anchors) && from < |anchors|
    ensures Concat(RawBlocks(t, anchors, from)) == t[anchors[from].start..]
    decreases |anchors| - from
  {
    var bs := RawBlocks(t, anchors, from);
    var e := BlockEnd(t, anchors, from);
    assert bs[0] == t[anchors[from].start..e];
    assert bs[1..] == RawBlocks(t, anchors, from + 1);
    if from + 1 < |anchors| {
      RawBlocksPartition(t, anchors, from + 1);
      assert t[anchors[from].start..] == t[anchors[from].start..e] + t[e..];
    } else {
      assert Concat(bs[1..]) == [];
      assert t[anchors[from].start..] == t[anchors[from].start..e] + [];
    }
  }
}
