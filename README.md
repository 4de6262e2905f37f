# Canvas discussion parser, modelled in Dafny

The parser reads the plain-text export of a Canvas discussion, in which every
participant's post answers a fixed questionnaire ("Your preferred name:", "Your
preferred activity 1:" ... "Tool YOU don't want to learn now:"). It turns the export
into one record per post, holding the answers to five declared labels.

This project models the whole parsing pipeline of `parse_canvas_discussion.py` and
proves properties of it:

- `config.dfy` (module `Config`): the label table `LABELS`, the post anchor
  `BLOCK_ANCHOR`, and the question and noise patterns the cleaner deletes. Each
  pattern is a value of a small pattern language.
- `regex.dfy` (module `Regex`): the fragment of Python's `re` that these patterns use.
  - The atoms are literals (case-insensitive), an optional literal, `\s*` and `\s+`.
  - `MatchAt` matches the way the backtracking engine does: greedy whitespace that
    gives back.
  - It is proved sound and complete against a relational meaning `Derives`.
  - `Search` (`re.search`) and `FindAll` (`re.finditer`) are built on it, and their
    leftmost and no-match-missed properties are proved.
- `text.dfy` (modules `Wrappers`, `Text`): ASCII `str.isspace`, `str.strip()`,
  `str.strip("-")`, `str.split()`, `" ".join`, `str.upper()` of one character, and
  `re.sub(r"[ \t]+", " ", ...)`.
- `cleaner.dfy` (module `Cleaner`): `clean_raw_text`.
  - The five substitutions share one model of the `re.sub` scan (`Substitute`).
  - The noise-line pattern (`(?im)^\s*...\s*$`) is modelled with its own matcher.
  - The lazy question-and-answer patterns (`.*?(?=...|$)` under DOTALL) and
    `\n{3,}` also have their own matchers.
- `extractor.dfy` (module `Extractor`): `format_name` and
  `_extract_fields_from_block`.
  - Each of its two loops is a method proved against a function: `FindOccurrences`
    against `Occurrences`, and `StoreValues` against `Fill`.
  - `occurrences.sort(key=...)` is a stable insertion sort, `SortByStart`.
- `segmenter.dfy` (module `Segmenter`): `parse_discussion_text`.
  - Its loop over the anchors is the method `CutBlocks`.
  - Its list comprehension is the method `ExtractAll`.
  - The whole is `ParseDiscussionText`, proved equal to the function `Rows`.

Four behaviours of the code worth stating explicitly:

- **Order of the steps.** A value is stripped, then hyphen-stripped with `strip("-")`,
  stripped again, and only then are its runs of spaces and tabs collapsed.
- **Hyphens.** `strip("-")` removes every leading and trailing hyphen, not at most one
  (`Extractor.NormalizeStripsAllHyphens`).
- **Idempotence.** Normalisation is not idempotent. `"- -x"` normalises to `"-x"` and
  then to `"x"` (`Extractor.NormalizeNotIdempotent`).
- **The name formatter.** `format_name` is applied only under the key `"prenom"`,
  which no declared label has. So stored values are never reformatted
  (`Extractor.NameNeverFormatted`). `format_name` itself is modelled and proved on
  its own.

## Model

| member | source | states |
|---|---|---|
| Config.LabelKeys | parse_canvas_discussion.py:13-19 | there are five labels with pairwise distinct keys, exactly name, activity_1, activity_2, activity_3 and tool_not_now, and none of them is "prenom" |
| Config.PromptsSolid | parse_canvas_discussion.py:14-22 | every label prompt begins with a literal character |
| Config.CleanerPatternsSolid | parse_canvas_discussion.py:29-49 | the noise-line literals and the three question prompts begin with a literal character |
| Config.PatternsSolid | parse_canvas_discussion.py:13-22 | every label pattern begins with a literal, so none matches empty text; the anchor is the first label's prompt |
| Regex.MatchAt | parse_canvas_discussion.py:14-22 | a reported match ends inside the text, and a pattern that begins with a literal never matches empty text |
| Regex.MatchAtSound | parse_canvas_discussion.py:14-22 | the match the engine reports is a genuine match of the pattern |
| Regex.MatchAtComplete | parse_canvas_discussion.py:14-22 | if the pattern can match at a position at all, the engine reports a match there |
| Regex.Search | parse_canvas_discussion.py:74 | `rx.search` returns a match of the pattern, and no match starts before it |
| Regex.SearchIsLeftmost | parse_canvas_discussion.py:74-76 | `rx.search` finds a match exactly when one exists, and its start is at or before the start of every match |
| Regex.FindAll | parse_canvas_discussion.py:94 | `finditer` yields non-empty matches of the pattern, in increasing order, without overlap |
| Regex.FindAllFirst | parse_canvas_discussion.py:94 | no match starts before the first match `finditer` yields, and none at all when it yields nothing |
| Regex.FindAllBetween | parse_canvas_discussion.py:94 | no match starts between two consecutive matches `finditer` yields |
| Regex.FindAllLast | parse_canvas_discussion.py:94 | no match starts after the last match `finditer` yields |
| Regex.FindAllEmpty | parse_canvas_discussion.py:94-96 | `finditer` yields nothing exactly when the pattern matches nowhere in the text |
| Text.Upper | parse_canvas_discussion.py:66 | `upper()` maps a lower-case ASCII letter to the upper-case letter whose lower case it is, and leaves every other character alone |
| Text.Trim | parse_canvas_discussion.py:57 | `strip` leaves a result that is empty or starts and ends outside the stripped class, and is no longer than its input |
| Text.TrimLeftIs | parse_canvas_discussion.py:84 | dropping a leading run removes exactly the maximal run of characters in the class |
| Text.TrimIs | parse_canvas_discussion.py:84 | `strip` removes exactly the maximal leading and trailing runs of characters in the class |
| Text.TrimKeeps | parse_canvas_discussion.py:84 | text whose two ends lie outside the class is its own strip |
| Text.TrimAll | parse_canvas_discussion.py:84 | text made only of characters in the class strips to nothing |
| Text.CollapseBlanks | parse_canvas_discussion.py:84 | `re.sub(r"[ \t]+", " ", ...)` never lengthens the text |
| Text.CollapseBlanksEnds | parse_canvas_discussion.py:84 | collapsing leaves text empty exactly when it was empty, and turns a blank first or last character into a space while keeping any other one |
| Text.CollapseBlanksClean | parse_canvas_discussion.py:84 | after collapsing there is no tab and never two spaces in a row |
| Text.CollapseNoBlanks | parse_canvas_discussion.py:84 | text without spaces or tabs is left unchanged |
| Text.CollapseRun | parse_canvas_discussion.py:84 | a non-empty run of spaces and tabs becomes a single space |
| Text.CollapseRunThen | parse_canvas_discussion.py:84 | a run of spaces and tabs at the front, followed by nothing or by another character, becomes one space in front of the collapsed rest |
| Text.CollapseAppend | parse_canvas_discussion.py:84 | collapsing two pieces separately gives the collapse of the whole, whenever no run of spaces and tabs straddles the cut |
| Text.CollapseGap | parse_canvas_discussion.py:84 | between two characters that are not spaces or tabs, a run of them becomes exactly one space |
| Text.CollapseBlanksKeepsText | parse_canvas_discussion.py:84 | collapsing keeps every character other than a space or tab, in order |
| Text.SplitWords | parse_canvas_discussion.py:64 | `split()` yields non-empty whitespace-free words, and yields none exactly when the text is all whitespace |
| Text.SplitCons | parse_canvas_discussion.py:64 | a word followed by whitespace or by nothing is the first token of `split()` |
| Text.SplitPadCons | parse_canvas_discussion.py:64 | a word after any whitespace, followed by whitespace or by nothing, is the first token of `split()` and the rest gives the remaining tokens |
| Text.SplitLeading | parse_canvas_discussion.py:64 | leading whitespace does not change the tokens of `split()` |
| Text.SplitTrailing | parse_canvas_discussion.py:64 | trailing whitespace does not change the tokens of `split()` |
| Text.SplitStrip | parse_canvas_discussion.py:64 | `strip().split()` gives the same tokens as `split()` |
| Text.SplitJoin | parse_canvas_discussion.py:64 | `split()` recovers non-empty, whitespace-free words joined by single spaces |
| Text.HyphensAround | parse_canvas_discussion.py:84 | on "--x--" the three strips leave "x" |
| Text.ShieldedHyphen | parse_canvas_discussion.py:84 | on "- -x" the three strips leave "-x", because the space stops `strip("-")` |
| Text.ExposedHyphen | parse_canvas_discussion.py:84 | on "-x" the three strips leave "x" |
| Cleaner.LineEnd | parse_canvas_discussion.py:29 | `.*` without DOTALL stops at the first newline or the end of the text |
| Cleaner.LastLineEnd | parse_canvas_discussion.py:29 | `\s*$` under MULTILINE gives back whitespace to the last line end the run reaches |
| Cleaner.NewlineEnd | parse_canvas_discussion.py:56 | gives the end of the maximal run of newlines that starts at a position |
| Cleaner.LazyEnd | parse_canvas_discussion.py:33-49 | lazy `.*?` under DOTALL stops at the first position where the lookahead (a stop label or the end of the text) holds |
| Cleaner.NoiseEnd | parse_canvas_discussion.py:29 | the noise-line pattern matches exactly at a line start that is followed by whitespace and then "Reply to post" or "Mark as Unread"; the match is non-empty and ends at a line end |
| Cleaner.LineLiteralSpan | parse_canvas_discussion.py:29 | a literal without newlines matches exactly its own length, over characters none of which is a newline |
| Cleaner.NoiseLiteralsOnOneLine | parse_canvas_discussion.py:29 | neither "Reply to post" nor "Mark as Unread" contains a newline |
| Cleaner.LineEndFrom | parse_canvas_discussion.py:29 | across text without newlines, `.*` stops at the same line end |
| Cleaner.NoiseSpan | parse_canvas_discussion.py:29 | a noise match covers the noise line up to its line end `l`, then only whitespace, and stops at the last line end before the whitespace after `l` runs out; nothing past that is deleted |
| Cleaner.MatchEnd | parse_canvas_discussion.py:29-56 | every match is longer than its replacement; a question-and-answer match runs from the question to the first stop; `\n{3,}` matches exactly at a run of three or more newlines and takes the whole run |
| Cleaner.Substitute | parse_canvas_discussion.py:29-56 | the `re.sub` scan never lengthens the text |
| Cleaner.Deletions | parse_canvas_discussion.py:28-53 | the four deletions never lengthen the text |
| Cleaner.Passes | parse_canvas_discussion.py:29-56 | the five substitutions never lengthen the text |
| Cleaner.Clean | parse_canvas_discussion.py:25-57 | `clean_raw_text` never lengthens the text |
| Cleaner.CleanTrimmed | parse_canvas_discussion.py:57 | the cleaned text neither starts nor ends with whitespace |
| Cleaner.SubstituteNoMatch | parse_canvas_discussion.py:29-56 | where the pattern matches nowhere, `re.sub` copies the text unchanged |
| Cleaner.SubstitutePrefix | parse_canvas_discussion.py:29-56 | the `re.sub` scan copies every character before the first position where the pattern matches |
| Cleaner.SubSpan | parse_canvas_discussion.py:29-56 | when the pattern matches at one position and nowhere before it or after that match, `re.sub` gives the text before the match, the replacement, and the text after the match |
| Cleaner.QuestionSpan | parse_canvas_discussion.py:32-53 | a question prompt that occurs once is deleted together with its answer, up to the first stop label or the end of the text, and the text on both sides is kept |
| Cleaner.SubstituteShrinks | parse_canvas_discussion.py:29-56 | where the pattern matches somewhere, `re.sub` makes the text strictly shorter |
| Cleaner.SubFixpoint | parse_canvas_discussion.py:29-56 | a pass leaves the text unchanged exactly when its pattern matches nowhere |
| Cleaner.QuestionAbsent | parse_canvas_discussion.py:32-53 | a question whose prompt occurs nowhere deletes nothing |
| Cleaner.NoiseAbsent | parse_canvas_discussion.py:29 | text without noise lines is left unchanged by the first pass |
| Cleaner.BlankRunAbsent | parse_canvas_discussion.py:56 | text without three newlines in a row is left unchanged by the last pass |
| Cleaner.CleanUntouched | parse_canvas_discussion.py:25-57 | on text where no pass finds anything, `clean_raw_text` only strips |
| Cleaner.LeadingNewlines | parse_canvas_discussion.py:56 | counts the newlines the text begins with |
| Cleaner.NoTriplePrepend | parse_canvas_discussion.py:56 | one more character in front keeps "no three newlines in a row" when it does not make a third newline |
| Cleaner.CollapseLeading | parse_canvas_discussion.py:56 | after `re.sub(r"\n{3,}", "\n\n", ...)` there are no three newlines in a row, and the output begins with as many newlines as the input, capped at two |
| Cleaner.NoTripleSlice | parse_canvas_discussion.py:57 | a slice of text without three newlines in a row has none either |
| Cleaner.StripNoTriple | parse_canvas_discussion.py:57 | `strip()` keeps "no three newlines in a row" |
| Cleaner.CleanNoTripleNewline | parse_canvas_discussion.py:55-57 | the cleaned text never holds three newlines in a row |
| Extractor.FormatNameParts | parse_canvas_discussion.py:64-67 | `format_name` depends only on the tokens of `split()`: stripping first changes nothing |
| Extractor.FormatNameOfWords | parse_canvas_discussion.py:64-66 | two or more words, with any whitespace before, between and after them, give the first word, a space and the upper-cased initial of the second |
| Extractor.FormatNameOfWord | parse_canvas_discussion.py:64-67 | a single word with any whitespace around it is returned whole |
| Extractor.FormatNameEmpty | parse_canvas_discussion.py:64-67 | `format_name` gives "" exactly when the input is all whitespace |
| Extractor.NormalizeShape | parse_canvas_discussion.py:84 | a normalised value has no tab, never two spaces in a row, and no whitespace at either end |
| Extractor.CollapseStripped | parse_canvas_discussion.py:84 | collapsing text whose ends are not whitespace yields a normalised value |
| Extractor.NormalizeKeepsText | parse_canvas_discussion.py:84 | normalising keeps every character of the stripped value other than spaces and tabs, in order |
| Extractor.Occurrences | parse_canvas_discussion.py:72-76 | the first loop records no more occurrences than there are labels, each inside the text |
| Extractor.OccurrencesSpec | parse_canvas_discussion.py:72-76 | every recorded occurrence is the leftmost match of a label with its key, and every label that matches somewhere has its leftmost match recorded |
| Extractor.LastKeyFresh | parse_canvas_discussion.py:72-76 | with distinct keys, no occurrence found before the last label carries that label's key |
| Extractor.OccurrencesOnce | parse_canvas_discussion.py:72-76 | with distinct keys, no occurrence is recorded twice |
| Extractor.Insert | parse_canvas_discussion.py:77 | inserting into a list sorted by start keeps it sorted |
| Extractor.InsertPermutes | parse_canvas_discussion.py:77 | insertion adds exactly the inserted element |
| Extractor.SortByStart | parse_canvas_discussion.py:77 | the result of the sort is ordered by start |
| Extractor.SortByStartPermutes | parse_canvas_discussion.py:77 | the sort is a permutation of its input |
| Extractor.InsertFrontStable | parse_canvas_discussion.py:77 | placing an element before a sorted list that starts later changes only the elements with its own start, by appending it |
| Extractor.InsertStable | parse_canvas_discussion.py:77 | insertion places the new element after every element with the same start |
| Extractor.SortByStartStable | parse_canvas_discussion.py:77 | the sort is stable: elements with equal starts keep their original order |
| Extractor.SortKeepsWithin | parse_canvas_discussion.py:77 | sorting keeps every occurrence inside the text |
| Extractor.ValueOfOverlap | parse_canvas_discussion.py:81-84 | when the next label found starts before an occurrence ends, the slice between them is empty and so is the value |
| Extractor.LastWithKey | parse_canvas_discussion.py:80-87 | finds the last occurrence among the first `n` that carries a key, or reports that none does |
| Extractor.FillAt | parse_canvas_discussion.py:80-87 | after the second loop each key holds the value of the last occurrence with that key, or its initial entry when no occurrence has it |
| Extractor.FillKeys | parse_canvas_discussion.py:80-87 | the second loop's keys are the initial keys plus the keys of the visited occurrences |
| Extractor.SortedOccurrences | parse_canvas_discussion.py:72-77 | the sorted occurrences lie inside the text |
| Extractor.FindOccurrences | parse_canvas_discussion.py:72-76 | the first loop computes the leftmost match of each label, in label order |
| Extractor.StoreValues | parse_canvas_discussion.py:70-87 | the second loop, starting from an empty entry per label, stores each occurrence's normalised value under its key |
| Extractor.ExtractFields | parse_canvas_discussion.py:69-88 | `_extract_fields_from_block` returns the record of the sorted occurrences |
| Extractor.OccurrenceKeys | parse_canvas_discussion.py:72-77 | every visited occurrence carries a declared key |
| Extractor.FillKeepsKeys | parse_canvas_discussion.py:80-87 | storing only under existing keys keeps the set of keys |
| Extractor.RecordKeys | parse_canvas_discussion.py:70-87 | a record has exactly the declared keys |
| Extractor.KeyOrigin | parse_canvas_discussion.py:72-80 | with distinct keys, an occurrence with a label's key is that label's leftmost match, and that match is visited |
| Extractor.OneOccurrencePerKey | parse_canvas_discussion.py:73-80 | with distinct keys, no two visited occurrences share a key, so a later repeat of a label is never a field of its own |
| Extractor.RecordAt | parse_canvas_discussion.py:70-87 | a label that matches nowhere maps to ""; a label that matches maps to the value read after its leftmost match, up to the next label found |
| Extractor.FillValueFrom | parse_canvas_discussion.py:80-87 | each entry after the second loop is either the initial entry or a stored value of an occurrence with that key |
| Extractor.ValueNormalized | parse_canvas_discussion.py:81-86 | the value of an occurrence whose key is not "prenom" is normalised |
| Extractor.RecordNormalized | parse_canvas_discussion.py:84-87 | every value of a record for the declared labels is normalised |
| Extractor.NameNeverFormatted | parse_canvas_discussion.py:85-86 | under the declared keys, the stored value is the normalised value, never reformatted |
| Extractor.NormalizeStripsAllHyphens | parse_canvas_discussion.py:84 | "--x--" normalises to "x": all leading and trailing hyphens go |
| Extractor.NormalizeNotIdempotent | parse_canvas_discussion.py:84 | "- -x" normalises to "-x" and then to "x", so normalising twice differs from normalising once |
| Segmenter.Anchors | parse_canvas_discussion.py:94 | the anchor matches are non-empty, inside the text, increasing and non-overlapping |
| Segmenter.BlockEnd | parse_canvas_discussion.py:101 | a post ends no earlier than its anchor match and no later than the text |
| Segmenter.Blocks | parse_canvas_discussion.py:98-102 | there is one post per anchor |
| Segmenter.BlocksAt | parse_canvas_discussion.py:98-102 | post `i` is the stripped text from anchor `i` to the next anchor or the end |
| Segmenter.Records | parse_canvas_discussion.py:104 | there is one record per post |
| Segmenter.RecordsSnoc | parse_canvas_discussion.py:104 | one more post adds its record at the end |
| Segmenter.RecordsAt | parse_canvas_discussion.py:104 | record `i` is the record extracted from post `i` |
| Segmenter.CutBlocks | parse_canvas_discussion.py:98-102 | the loop cuts the cleaned text into the stripped posts, one per anchor, in order |
| Segmenter.ExtractAll | parse_canvas_discussion.py:104 | the comprehension extracts one record per post, in order |
| Segmenter.ParseDiscussionText | parse_canvas_discussion.py:90-105 | `parse_discussion_text` returns the records of the posts of the cleaned text |
| Segmenter.RowsPerAnchor | parse_canvas_discussion.py:94-105 | there is one row per anchor match, and no rows exactly when the anchor matches nowhere in the cleaned text |
| Segmenter.RowKeys | parse_canvas_discussion.py:104 | every row has exactly the five declared columns |
| Segmenter.RowValuesNormalized | parse_canvas_discussion.py:104 | every value in every row is normalised |
| Segmenter.BlockStartsAtAnchor | parse_canvas_discussion.py:100-102 | a post is non-empty, begins at its anchor match with the "Y" of "Your preferred name", and is the text from there on with only its end stripped |
| Segmenter.OneAnchorPerBlock | parse_canvas_discussion.py:99-101 | no anchor match starts inside a post after its own anchor |
| Segmenter.FirstStartsFirst | parse_canvas_discussion.py:94 | no anchor match starts before the first one `finditer` yields |
| Segmenter.PreambleDropped | parse_canvas_discussion.py:99-100 | the text before the first anchor holds no anchor match, and every anchor match, which is where a post begins, starts at or after the first, so the preamble belongs to no post |
| Segmenter.RawBlocks | parse_canvas_discussion.py:99-101 | there is one unstripped post per anchor from a given one on |
| Segmenter.RawBlocksPartition | parse_canvas_discussion.py:99-101 | the unstripped posts from post `i` on, concatenated, are exactly the cleaned text from anchor `i` to the end |

## Left out

- `main` (argument parsing, reading the input file with undecodable bytes ignored, CSV writing, the summary print) is not modelled: it is I/O around `parse_discussion_text`.
- `_compile_label_patterns` is modelled by passing the label table itself. Compiling a pattern is not modelled.
- Regex.MatchAt: only the regex features the parser's own patterns use are modelled, not Python's whole `re`.
- Text.IsSpace: characters are classified as whitespace only in ASCII. So are `IGNORECASE` comparison and `upper()`. Unicode whitespace and Unicode case mapping (including one character upper-casing to several) are not modelled.
- Text.Upper: `parts[1][0].upper()` is modelled for ASCII only.
- The noise-line and question patterns are modelled by dedicated matchers (`Cleaner.NoiseEnd`, `Cleaner.LazyEnd`), not by the general pattern language.
- Extractor.PySlice: only in-range bounds are modelled. Every slice the parser takes has in-range bounds, so Python's clamping of out-of-range bounds never comes into play.
- Extractor.FormatName: its properties are stated by the lemmas FormatNameParts, FormatNameOfWords, FormatNameOfWord and FormatNameEmpty, not by its own contract.
- Cleaner.NoiseEnd: that no noise line survives the first pass, whatever the text, is not proved. NoiseSpan states what one noise match covers, SubSpan what the pass does around a single match, and NoiseAbsent what it does on text without matches.
- Extractor.Normalize: its properties are stated by NormalizeShape and NormalizeKeepsText, not by its own contract.
- Records are maps: the insertion order of Python's dict is not modelled. The column order of the output belongs to the CSV writer, which is not modelled.
- The two loops of `_extract_fields_from_block` and the loop of `parse_discussion_text` are separate methods (`FindOccurrences`, `StoreValues`, `CutBlocks`), called in the source's order.
