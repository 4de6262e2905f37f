/** `format_name` and `_extract_fields_from_block`: find each label once in a
    post, order the labels found by position, and take as each label's value the
    normalised text between it and the next label found. */
module Extractor {
  import opened Wrappers
  import opened Text
  import opened Regex
  import opened Config

  // ---------------------------------------------------------------------------
  // format_name

  /** `format_name(raw)`: the first word, a space and the upper-cased initial of
      the second word; a single word as it is; nothing for blank input. */
  function FormatName(raw: string): (r: string)
  {
    var parts := Split(Strip(raw));
    SplitWords(Strip(raw));
    if |parts| >= 2 then parts[0] + " " + [Upper(parts[1][0])]
    else if |parts| == 1 then parts[0]
    else ""
  }

  /** `format_name` reads the tokens of the whole input: stripping first changes
      nothing. */
  lemma {:induction false} FormatNameParts(raw: string)
    ensures forall k :: 0 <= k < |Split(raw)| ==> IsWord(Split(raw)[k])
    ensures |Split(raw)| >= 2 ==> (IsWord(Split(raw)[1]) &&
      FormatName(raw) == Split(raw)[0] + " " + [Upper(Split(raw)[1][0])])
    ensures |Split(raw)| == 1 ==> FormatName(raw) == Split(raw)[0]
    ensures Split(raw) == [] ==> FormatName(raw) == ""
  {
    SplitStrip(raw);
    SplitWords(raw);
  }

  /** Two or more words, with any whitespace around and between them: the first
      word and the second word's capitalised initial. */
  lemma {:induction false} FormatNameOfWords(ws0: string, first: string, ws1: string, second: string, tail: string)
    requires AllSpace(ws0) && AllSpace(ws1) && ws1 != []
    requires IsWord(first) && IsWord(second)
    requires tail == [] || IsSpace(tail[0])
    ensures FormatName(ws0 + first + ws1 + second + tail) == first + " " + [Upper(second[0])]
  {
    var rest := second + tail;
    var raw := ws0 + (first + (ws1 + rest));
    assert ws0 + first + ws1 + second + tail == raw;
    SplitLeading(ws0, first + (ws1 + rest));
    SplitCons(first, ws1 + rest);
    SplitLeading(ws1, rest);
    SplitCons(second, tail);
    FormatNameParts(raw);
  }

  /** A single word, with any whitespace around it, is returned whole. */
  lemma {:induction false} FormatNameOfWord(ws0: string, w: string, ws1: string)
    requires AllSpace(ws0) && AllSpace(ws1) && IsWord(w)
    ensures FormatName(ws0 + w + ws1) == w
  {
    var raw := ws0 + (w + ws1);
    assert ws0 + w + ws1 == raw;
    SplitLeading(ws0, w + ws1);
    SplitCons(w, ws1);
    SplitWords(ws1);
    FormatNameParts(raw);
  }

  /** Blank input gives the empty name, and only blank input does. */
  lemma {:induction false} FormatNameEmpty(raw: string)
    ensures FormatName(raw) == "" <==> AllSpace(raw)
  {
    FormatNameParts(raw);
    SplitWords(raw);
    var parts := Split(raw);
    if |parts| >= 1 {
      assert IsWord(parts[0]);
    }
  }

  // ---------------------------------------------------------------------------
  // Values

  /** Python's `t[a:b]` for in-range bounds: empty when `a > b`. */
  function PySlice(t: string, a: nat, b: nat): (r: string)
    requires a <= |t| && b <= |t|
    ensures |r| == if a <= b then b - a else 0
    ensures forall i :: 0 <= i < |r| ==> r[i] == t[a + i]
  {
    if a <= b then t[a..b] else ""
  }

  /** `re.sub(r"[ \t]+", " ", val.strip().strip("-").strip())` */
  function Normalize(v: string): string {
    CollapseBlanks(Strip(StripHyphens(Strip(v))))
  }

  /** A normalised value has no tab, never two spaces in a row and no whitespace
      at either end. */
  lemma {:induction false} NormalizeShape(v: string)
    ensures Normalized(Normalize(v))
  {
    CollapseStripped(Strip(StripHyphens(Strip(v))));
  }

  /** Collapsing text without whitespace at its ends normalises it. */
  lemma {:induction false} CollapseStripped(s: string)
    requires s == [] || (!IsSpace(s[0]) && !IsSpace(s[|s| - 1]))
    ensures Normalized(CollapseBlanks(s))
  {
    CollapseBlanksEnds(s);
    CollapseBlanksClean(s);
  }

  /** Normalising keeps every character of the stripped value other than spaces
      and tabs, in order. */
  lemma {:induction false} NormalizeKeepsText(v: string)
    ensures NonBlanks(Normalize(v)) == NonBlanks(Strip(StripHyphens(Strip(v))))
  {
    CollapseBlanksKeepsText(Strip(StripHyphens(Strip(v))));
  }

  /** No tab, never two spaces in a row, no whitespace at either end. */
  predicate Normalized(v: string) {
    NoTab(v) && NoDoubleSpace(v) && (v == [] || (!IsSpace(v[0]) && !IsSpace(v[|v| - 1])))
  }

  /** The value stored under `key`: names pass through `format_name`. */
  function StoredValue(key: string, v: string): string {
    if key == NameFormattedKey then FormatName(v) else v
  }

  // ---------------------------------------------------------------------------
  // Occurrences of the labels

  /** `(m.start(), m.end(), key)` */
  datatype Occurrence = Occurrence(start: nat, end: nat, key: string)

  predicate Within(text: string, occ: seq<Occurrence>) {
    forall i :: 0 <= i < |occ| ==> occ[i].start <= occ[i].end <= |text|
  }

  /** The first loop: for each label in order, its first match in `text`, if any. */
  function Occurrences(text: string, labels: seq<Label>): (occ: seq<Occurrence>)
    ensures |occ| <= |labels| && Within(text, occ)
    decreases |labels|
  {
    if labels == [] then []
    else
      var prev := Occurrences(text, labels[..|labels| - 1]);
      var l := labels[|labels| - 1];
      match Search(l.pattern, text, 0)
      case None => prev
      case Some(m) => prev + [Occurrence(m.start, m.end, l.key)]
  }

  /** Every occurrence is the leftmost match of a label carrying its key, and
      every label that matches somewhere has its leftmost match recorded. */
  lemma {:induction false} OccurrencesSpec(text: string, labels: seq<Label>)
    ensures forall x :: x in Occurrences(text, labels) ==>
      exists j :: 0 <= j < |labels| && labels[j].key == x.key &&
        Search(labels[j].pattern, text, 0) == Some(Span(x.start, x.end))
    ensures forall j :: 0 <= j < |labels| && Search(labels[j].pattern, text, 0).Some? ==>
      var m := Search(labels[j].pattern, text, 0).value;
      Occurrence(m.start, m.end, labels[j].key) in Occurrences(text, labels)
    decreases |labels|
  {
    if labels != [] {
      var init := labels[..|labels| - 1];
      OccurrencesSpec(text, init);
      assert forall j :: 0 <= j < |init| ==> init[j] == labels[j];
    }
  }

  // ---------------------------------------------------------------------------
  // occurrences.sort(key=lambda x: x[0]): a stable sort by start

  predicate SortedByStart(s: seq<Occurrence>) {
    forall i, j :: 0 <= i < j < |s| ==> s[i].start <= s[j].start
  }

  /** Insert `x` after every element that starts no later than it. */
  function Insert(x: Occurrence, s: seq<Occurrence>): (r: seq<Occurrence>)
    requires SortedByStart(s)
    ensures SortedByStart(r)
    ensures forall i :: 0 <= i < |r| ==> r[i].start >= x.start || r[i] in s
    decreases |s|
  {
    if s == [] then [x]
    else if x.start < s[0].start then [x] + s
    else
      var rest := Insert(x, s[1..]);
      var r := [s[0]] + rest;
      assert forall i :: 0 < i < |r| ==> r[i] == rest[i - 1];
      r
  }

  lemma {:induction false} InsertPermutes(x: Occurrence, s: seq<Occurrence>)
    requires SortedByStart(s)
    ensures multiset(Insert(x, s)) == multiset(s) + multiset{x}
    decreases |s|
  {
    if s != [] && x.start >= s[0].start {
      var rest := Insert(x, s[1..]);
      calc {
        multiset(Insert(x, s));
        multiset([s[0]] + rest);
        multiset{s[0]} + multiset(rest);
        { InsertPermutes(x, s[1..]); }
        multiset{s[0]} + multiset(s[1..]) + multiset{x};
        { assert s == [s[0]] + s[1..]; }
        multiset(s) + multiset{x};
      }
    }
  }

  /** Insertion sort, taking the elements in their original order. */
  function SortByStart(s: seq<Occurrence>): (r: seq<Occurrence>)
    ensures SortedByStart(r)
    decreases |s|
  {
    if s == [] then [] else Insert(s[|s| - 1], SortByStart(s[..|s| - 1]))
  }

  /** The sort is a permutation. */
  lemma {:induction false} SortByStartPermutes(s: seq<Occurrence>)
    ensures multiset(SortByStart(s)) == multiset(s)
    decreases |s|
  {
    if s != [] {
      SortByStartPermutes(s[..|s| - 1]);
      InsertPermutes(s[|s| - 1], SortByStart(s[..|s| - 1]));
      assert s == s[..|s| - 1] + [s[|s| - 1]];
    }
  }

  /** The elements of `s` that start at `v`, in order. */
  function WithStart(s: seq<Occurrence>, v: nat): seq<Occurrence>
    decreases |s|
  {
    if s == [] then [] else (if s[0].start == v then [s[0]] else []) + WithStart(s[1..], v)
  }

  lemma {:induction false} WithStartAppend(a: seq<Occurrence>, b: seq<Occurrence>, v: nat)
    ensures WithStart(a + b, v) == WithStart(a, v) + WithStart(b, v)
    decreases |a|
  {
    if a == [] {
      assert a + b == b;
    } else {
      var h, r := a[0], a[1..];
      var head := if h.start == v then [h] else [];
      ConsAppend(a, b);
      calc {
        WithStart(a + b, v);
        WithStart([h] + (r + b), v);
        { WithStartCons(h, r + b, v); }
        head + WithStart(r + b, v);
        { WithStartAppend(r, b, v); }
        head + (WithStart(r, v) + WithStart(b, v));
        (head + WithStart(r, v)) + WithStart(b, v);
        { WithStartCons(h, r, v); ConsTail(a); }
        WithStart(a, v) + WithStart(b, v);
      }
    }
  }

  lemma {:induction false} ConsAppend(a: seq<Occurrence>, b: seq<Occurrence>)
    requires a != []
    ensures a + b == [a[0]] + (a[1..] + b)
  {
  }

  lemma {:induction false} WithStartNone(s: seq<Occurrence>, v: nat)
    requires forall i :: 0 <= i < |s| ==> s[i].start != v
    ensures WithStart(s, v) == []
    decreases |s|
  {
    if s != [] {
      WithStartNone(s[1..], v);
    }
  }

  lemma {:induction false} WithStartCons(x: Occurrence, s: seq<Occurrence>, v: nat)
    ensures WithStart([x] + s, v) == (if x.start == v then [x] else []) + WithStart(s, v)
  {
    assert ([x] + s)[1..] == s;
  }

  /** Inserting in front of a sorted sequence that starts later than `x`. */
  lemma {:induction false} InsertFrontStable(x: Occurrence, s: seq<Occurrence>, v: nat)
    requires SortedByStart(s) && s != [] && x.start < s[0].start
    ensures WithStart([x] + s, v) == WithStart(s, v) + (if x.start == v then [x] else [])
  {
    WithStartCons(x, s, v);
    if x.start == v {
      WithStartNone(s, v);
    }
  }

  /** Putting the same occurrence in front of two sequences keeps the relation
      between their occurrences at `v`. */
  lemma {:induction false} ConsStable(h: Occurrence, s: seq<Occurrence>, t: seq<Occurrence>, own: seq<Occurrence>, v: nat)
    requires WithStart(s, v) == WithStart(t, v) + own
    ensures WithStart([h] + s, v) == WithStart([h] + t, v) + own
  {
    var head := if h.start == v then [h] else [];
    var ws, wt := WithStart(s, v), WithStart(t, v);
    calc {
      WithStart([h] + s, v);
      { WithStartCons(h, s, v); }
      head + ws;
      head + (wt + own);
      (head + wt) + own;
      { WithStartCons(h, t, v); }
      WithStart([h] + t, v) + own;
    }
  }

  lemma {:induction false} SortedTail(s: seq<Occurrence>)
    requires SortedByStart(s) && s != []
    ensures SortedByStart(s[1..])
  {
    forall i, j | 0 <= i < j < |s[1..]| ensures s[1..][i].start <= s[1..][j].start {
      assert s[1..][i] == s[i + 1] && s[1..][j] == s[j + 1];
    }
  }

  lemma {:induction false} ConsTail(s: seq<Occurrence>)
    requires s != []
    ensures [s[0]] + s[1..] == s
  {
  }

  /** `Insert` past the first element, which starts no later than `x`. */
  lemma {:induction false} InsertPast(x: Occurrence, s: seq<Occurrence>)
    requires SortedByStart(s) && s != [] && x.start >= s[0].start
    ensures SortedByStart(s[1..]) && Insert(x, s) == [s[0]] + Insert(x, s[1..])
  {
    SortedTail(s);
  }

  lemma {:induction false} InsertStable(x: Occurrence, s: seq<Occurrence>, v: nat)
    requires SortedByStart(s)
    ensures WithStart(Insert(x, s), v) == WithStart(s, v) + (if x.start == v then [x] else [])
    decreases |s|
  {
    var own := if x.start == v then [x] else [];
    if s == [] {
      assert Insert(x, s) == [x] + s;
      WithStartCons(x, s, v);
    } else if x.start < s[0].start {
      assert Insert(x, s) == [x] + s;
      InsertFrontStable(x, s, v);
    } else {
      InsertPast(x, s);
      var rest := Insert(x, s[1..]);
      calc {
        WithStart(Insert(x, s), v);
        WithStart([s[0]] + rest, v);
        { InsertStable(x, s[1..], v);
          ConsStable(s[0], rest, s[1..], own, v); }
        WithStart([s[0]] + s[1..], v) + own;
        { ConsTail(s); }
        WithStart(s, v) + own;
      }
    }
  }

  /** The sort is stable: occurrences with equal starts keep their relative order. */
  lemma {:induction false} SortByStartStable(s: seq<Occurrence>, v: nat)
    ensures WithStart(SortByStart(s), v) == WithStart(s, v)
    decreases |s|
  {
    if s != [] {
      var init, x := s[..|s| - 1], s[|s| - 1];
      SortByStartStable(init, v);
      InsertStable(x, SortByStart(init), v);
      assert s == init + [x];
      WithStartAppend(init, [x], v);
    }
  }

  lemma {:induction false} SortKeepsWithin(text: string, s: seq<Occurrence>)
    requires Within(text, s)
    ensures Within(text, SortByStart(s))
  {
    var r := SortByStart(s);
    SortByStartPermutes(s);
    forall i | 0 <= i < |r| ensures r[i].start <= r[i].end <= |text| {
      assert r[i] in multiset(s);
    }
  }

  // ---------------------------------------------------------------------------
  // The second loop

  /** The value of the `i`-th occurrence: the text from its end to the start of
      the next occurrence (or the end of the text), normalised. */
  function Value(text: string, occ: seq<Occurrence>, i: nat): string
    requires Within(text, occ) && i < |occ|
  {
    var next := if i + 1 < |occ| then occ[i + 1].start else |text|;
    StoredValue(occ[i].key, Normalize(PySlice(text, occ[i].end, next)))
  }

  /** When the next label starts before this one ends, Python's slice is empty and
      so is the value: overlapping labels give no text to the earlier one. */
  lemma {:induction false} ValueOfOverlap(text: string, occ: seq<Occurrence>, i: nat)
    requires Within(text, occ) && i + 1 < |occ| && occ[i + 1].start < occ[i].end
    ensures Value(text, occ, i) == ""
  {
    assert PySlice(text, occ[i].end, occ[i + 1].start) == "";
    assert Normalize("") == "" by {
      TrimAll("", Whitespace);
      TrimAll("", Hyphen);
      TrimAll("", Blank);
    }
    FormatNameEmpty("");
  }

  /** `{key: "" for key, _ in label_patterns}` */
  function Initial(labels: seq<Label>): (m: map<string, string>)
    ensures m.Keys == Keys(labels)
    ensures forall k :: k in m ==> m[k] == ""
  {
    map k | k in Keys(labels) :: ""
  }

  /** The values of all occurrences, in order. */
  function Values(text: string, occ: seq<Occurrence>): (vals: seq<string>)
    requires Within(text, occ)
    ensures |vals| == |occ| && forall i :: 0 <= i < |occ| ==> vals[i] == Value(text, occ, i)
  {
    seq(|occ|, i requires 0 <= i < |occ| => Value(text, occ, i))
  }

  /** `results` after the first `n` rounds of the second loop, where round `i`
      stores `vals[i]` under the key of `occ[i]`. */
  function Fill(base: map<string, string>, occ: seq<Occurrence>, vals: seq<string>, n: nat): map<string, string>
    requires n <= |occ| == |vals|
  {
    if n == 0 then base else Fill(base, occ, vals, n - 1)[occ[n - 1].key := vals[n - 1]]
  }

  /** One more round of the second loop stores one more value. */
  lemma {:induction false} FillStep(base: map<string, string>, occ: seq<Occurrence>, vals: seq<string>, n: nat)
    requires n < |occ| == |vals|
    ensures Fill(base, occ, vals, n + 1) == Fill(base, occ, vals, n)[occ[n].key := vals[n]]
  {
  }

  /** The position of the last occurrence among the first `n` that carries `key`. */
  function LastWithKey(occ: seq<Occurrence>, key: string, n: nat): (r: Option<nat>)
    requires n <= |occ|
    ensures r.Some? ==> r.value < n && occ[r.value].key == key
    ensures r.Some? ==> forall j :: r.value < j < n ==> occ[j].key != key
    ensures r.None? ==> forall j :: 0 <= j < n ==> occ[j].key != key
  {
    if n == 0 then None else if occ[n - 1].key == key then Some(n - 1) else LastWithKey(occ, key, n - 1)
  }

  /** What the second loop leaves under each key: the value of the last occurrence
      with that key, or the initial entry when there is none. */
  lemma {:induction false} FillAt(base: map<string, string>, occ: seq<Occurrence>, vals: seq<string>, n: nat, key: string)
    requires n <= |occ| == |vals|
    ensures var m := Fill(base, occ, vals, n);
      match LastWithKey(occ, key, n)
      case Some(i) => key in m && m[key] == vals[i]
      case None => (key in m <==> key in base) && (key in base ==> m[key] == base[key])
    decreases n
  {
    if n > 0 {
      FillAt(base, occ, vals, n - 1, key);
    }
  }

  /** The entries the second loop can create are the initial ones and the keys of
      the occurrences. */
  lemma {:induction false} FillKeys(base: map<string, string>, occ: seq<Occurrence>, vals: seq<string>, n: nat)
    requires n <= |occ| == |vals|
    ensures Fill(base, occ, vals, n).Keys == base.Keys + set i | 0 <= i < n :: occ[i].key
    decreases n
  {
    if n > 0 {
      FillKeys(base, occ, vals, n - 1);
      assert (set i | 0 <= i < n :: occ[i].key) == (set i | 0 <= i < n - 1 :: occ[i].key) + {occ[n - 1].key};
    }
  }

  /** The occurrences in the order the second loop visits them. */
  function SortedOccurrences(text: string, labels: seq<Label>): (occ: seq<Occurrence>)
    ensures Within(text, occ)
  {
    SortKeepsWithin(text, Occurrences(text, labels));
    SortByStart(Occurrences(text, labels))
  }

  /** `_extract_fields_from_block(text, labels)` */
  function Record(text: string, labels: seq<Label>): map<string, string> {
    var occ := SortedOccurrences(text, labels);
    Fill(Initial(labels), occ, Values(text, occ), |occ|)
  }

  /** The first loop of `_extract_fields_from_block`: the labels present in the
      text, each with its leftmost match, in the order of the labels. */
  method FindOccurrences(text: string, labels: seq<Label>) returns (occurrences: seq<Occurrence>)
    ensures occurrences == Occurrences(text, labels)
  {
    occurrences := [];
    for i := 0 to |labels|
      invariant occurrences == Occurrences(text, labels[..i])
    {
      assert labels[..i + 1][..i] == labels[..i];
      var m := Search(labels[i].pattern, text, 0);
      if m.Some? {
        occurrences := occurrences + [Occurrence(m.value.start, m.value.end, labels[i].key)];
      }
    }
    assert labels[..|labels|] == labels;
  }

  /** The second loop of `_extract_fields_from_block`: starting from an empty
      entry per label, store under each occurrence's key the text between it and
      the next occurrence, normalised. */
  method StoreValues(text: string, labels: seq<Label>, occurrences: seq<Occurrence>)
    returns (results: map<string, string>)
    requires Within(text, occurrences)
    ensures results == Fill(Initial(labels), occurrences, Values(text, occurrences), |occurrences|)
  {
    results := Initial(labels);
    ghost var vals := Values(text, occurrences);
    for i := 0 to |occurrences|
      invariant results == Fill(Initial(labels), occurrences, vals, i)
    {
      var start, end, key := occurrences[i].start, occurrences[i].end, occurrences[i].key;
      var valStart := end;
      var valEnd := if i + 1 < |occurrences| then occurrences[i + 1].start else |text|;
      var val := PySlice(text, valStart, valEnd);
      val := Normalize(val);
      if key == NameFormattedKey {
        val := FormatName(val);
      }
      assert val == vals[i];
      FillStep(Initial(labels), occurrences, vals, i);
      results := results[key := val];
    }
  }

  /** `_extract_fields_from_block(text, label_patterns)` */
  method ExtractFields(text: string, labels: seq<Label>) returns (results: map<string, string>)
    ensures results == Record(text, labels)
  {
    var occurrences := FindOccurrences(text, labels);
    occurrences := SortByStart(occurrences);
    assert occurrences == SortedOccurrences(text, labels);
    results := StoreValues(text, labels, occurrences);
  }

  // ---------------------------------------------------------------------------
  // What a record holds

  /** Every occurrence the second loop visits carries a declared key. */
  lemma {:induction false} OccurrenceKeys(text: string, labels: seq<Label>)
    ensures forall x :: x in SortedOccurrences(text, labels) ==> x.key in Keys(labels)
  {
    var occ := SortedOccurrences(text, labels);
    OccurrencesSpec(text, labels);
    SortByStartPermutes(Occurrences(text, labels));
    forall x | x in occ ensures x.key in Keys(labels) {
      assert x in multiset(Occurrences(text, labels));
      var j :| 0 <= j < |labels| && labels[j].key == x.key &&
        Search(labels[j].pattern, text, 0) == Some(Span(x.start, x.end));
      assert labels[j] in labels;
    }
  }

  /** Storing only under keys the map already has keeps its keys. */
  lemma {:induction false} FillKeepsKeys(base: map<string, string>, occ: seq<Occurrence>, vals: seq<string>)
    requires |occ| == |vals|
    requires forall x :: x in occ ==> x.key in base
    ensures Fill(base, occ, vals, |occ|).Keys == base.Keys
  {
    FillKeys(base, occ, vals, |occ|);
    forall i | 0 <= i < |occ| ensures occ[i].key in base {
      assert occ[i] in occ;
    }
  }

  /** A record has exactly one entry per declared key. */
  lemma {:induction false} RecordKeys(text: string, labels: seq<Label>)
    ensures Record(text, labels).Keys == Keys(labels)
  {
    var occ := SortedOccurrences(text, labels);
    OccurrenceKeys(text, labels);
    FillKeepsKeys(Initial(labels), occ, Values(text, occ));
  }

  /** With distinct keys, an occurrence carrying label `j`'s key is label `j`'s
      leftmost match, and that match, when there is one, is visited. */
  lemma {:induction false} KeyOrigin(text: string, labels: seq<Label>, j: nat)
    requires DistinctKeys(labels) && j < |labels|
    ensures forall x :: x in SortedOccurrences(text, labels) && x.key == labels[j].key ==>
      Search(labels[j].pattern, text, 0) == Some(Span(x.start, x.end))
    ensures Search(labels[j].pattern, text, 0).Some? ==>
      var m := Search(labels[j].pattern, text, 0).value;
      Occurrence(m.start, m.end, labels[j].key) in SortedOccurrences(text, labels)
  {
    var occ := SortedOccurrences(text, labels);
    OccurrencesSpec(text, labels);
    SortByStartPermutes(Occurrences(text, labels));
    forall x | x in occ && x.key == labels[j].key
      ensures Search(labels[j].pattern, text, 0) == Some(Span(x.start, x.end))
    {
      assert x in multiset(Occurrences(text, labels));
      var j' :| 0 <= j' < |labels| && labels[j'].key == x.key &&
        Search(labels[j'].pattern, text, 0) == Some(Span(x.start, x.end));
      if j' != j {
        assert false;
      }
    }
    var m := Search(labels[j].pattern, text, 0);
    if m.Some? {
      assert Occurrence(m.value.start, m.value.end, labels[j].key) in multiset(occ);
    }
  }

  /** With distinct keys, a label that matches nowhere gets "", and a label that
      matches gets the value that follows its leftmost match, up to the next label
      found. */
  lemma {:induction false} RecordAt(text: string, labels: seq<Label>, j: nat)
    requires DistinctKeys(labels) && j < |labels|
    ensures var r := Record(text, labels); var k := labels[j].key;
      k in r && (Search(labels[j].pattern, text, 0).None? ==> r[k] == "")
    ensures var r := Record(text, labels); var k := labels[j].key;
      var occ := SortedOccurrences(text, labels);
      Search(labels[j].pattern, text, 0).Some? ==>
        exists i :: 0 <= i < |occ| && occ[i].start == Search(labels[j].pattern, text, 0).value.start &&
          occ[i].end == Search(labels[j].pattern, text, 0).value.end && occ[i].key == k &&
          r[k] == Value(text, occ, i)
  {
    var occ := SortedOccurrences(text, labels);
    var vals := Values(text, occ);
    var k := labels[j].key;
    var base := Initial(labels);
    assert labels[j] in labels;
    assert k in base;
    FillAt(base, occ, vals, |occ|, k);
    KeyOrigin(text, labels, j);
    var m := Search(labels[j].pattern, text, 0);
    match LastWithKey(occ, k, |occ|)
    case None =>
    case Some(i) =>
      assert occ[i] in occ;
  }

  /** With distinct keys, no occurrence found before the last label carries the
      last label's key. */
  lemma {:induction false} LastKeyFresh(text: string, labels: seq<Label>)
    requires DistinctKeys(labels) && labels != []
    ensures forall y :: y in Occurrences(text, labels[..|labels| - 1]) ==> y.key != labels[|labels| - 1].key
  {
    var init := labels[..|labels| - 1];
    OccurrencesSpec(text, init);
    forall y | y in Occurrences(text, init) ensures y.key != labels[|labels| - 1].key {
      var j :| 0 <= j < |init| && init[j].key == y.key &&
        Search(init[j].pattern, text, 0) == Some(Span(y.start, y.end));
      assert init[j] == labels[j];
    }
  }

  /** With distinct keys, the first loop records each occurrence at most once. */
  lemma {:induction false} OccurrencesOnce(text: string, labels: seq<Label>, x: Occurrence)
    requires DistinctKeys(labels)
    ensures multiset(Occurrences(text, labels))[x] <= 1
    decreases |labels|
  {
    if labels != [] {
      var init := labels[..|labels| - 1];
      assert DistinctKeys(init) by {
        assert forall j :: 0 <= j < |init| ==> init[j] == labels[j];
      }
      OccurrencesOnce(text, init, x);
      LastKeyFresh(text, labels);
    }
  }

  /** An element at two positions of a sequence occurs in it at least twice. */
  lemma {:induction false} TwiceAt(s: seq<Occurrence>, i: nat, j: nat)
    requires i < j < |s| && s[i] == s[j]
    ensures multiset(s)[s[i]] >= 2
  {
    assert s == s[..j] + s[j..];
    assert s[i] == s[..j][i];
    assert s[j] == s[j..][0];
  }

  /** Only the leftmost match of each label is used: with distinct keys, no two
      occurrences the second loop visits carry the same key, so a later repeat of
      a label is never a field of its own. */
  lemma {:induction false} OneOccurrencePerKey(text: string, labels: seq<Label>, i: nat, j: nat)
    requires DistinctKeys(labels)
    requires i < j < |SortedOccurrences(text, labels)|
    ensures SortedOccurrences(text, labels)[i].key != SortedOccurrences(text, labels)[j].key
  {
    var occ := SortedOccurrences(text, labels);
    if occ[i].key == occ[j].key {
      OccurrenceKeys(text, labels);
      assert occ[i] in occ;
      var l :| l in labels && l.key == occ[i].key;
      var k :| 0 <= k < |labels| && labels[k] == l;
      KeyOrigin(text, labels, k);
      assert occ[j] in occ;
      assert occ[i] == occ[j];
      TwiceAt(occ, i, j);
      SortByStartPermutes(Occurrences(text, labels));
      OccurrencesOnce(text, labels, occ[i]);
    }
  }

  /** Where a filled entry comes from: the base map or one of the stored values. */
  lemma {:induction false} FillValueFrom(base: map<string, string>, occ: seq<Occurrence>, vals: seq<string>, key: string)
    requires |occ| == |vals| && key in Fill(base, occ, vals, |occ|)
    ensures var v := Fill(base, occ, vals, |occ|)[key];
      (key in base && v == base[key]) || exists i :: 0 <= i < |occ| && occ[i].key == key && v == vals[i]
  {
    FillAt(base, occ, vals, |occ|, key);
  }

  /** The value of an occurrence whose key is not formatted is normalised. */
  lemma {:induction false} ValueNormalized(text: string, occ: seq<Occurrence>, i: nat)
    requires Within(text, occ) && i < |occ| && occ[i].key != NameFormattedKey
    ensures Normalized(Value(text, occ, i))
  {
    var next := if i + 1 < |occ| then occ[i + 1].start else |text|;
    NormalizeShape(PySlice(text, occ[i].end, next));
  }

  /** Every value of a record from the declared labels is normalised: no tab, no two
      spaces in a row, no whitespace at either end. */
  lemma {:induction false} RecordNormalized(text: string, key: string)
    requires key in Record(text, Labels)
    ensures Normalized(Record(text, Labels)[key])
  {
    var occ := SortedOccurrences(text, Labels);
    var vals := Values(text, occ);
    FillValueFrom(Initial(Labels), occ, vals, key);
    var v := Record(text, Labels)[key];
    if key in Initial(Labels) && v == Initial(Labels)[key] {
      assert v == [];
    } else {
      var i :| 0 <= i < |occ| && occ[i].key == key && v == vals[i];
      LabelKeys();
      OccurrenceKeys(text, Labels);
      assert occ[i] in occ;
      ValueNormalized(text, occ, i);
    }
  }

  /** `format_name` is never applied to the declared labels: no key is "prenom". */
  lemma {:induction false} NameNeverFormatted(key: string, v: string)
    requires key in Keys(Labels)
    ensures StoredValue(key, v) == v
  {
    LabelKeys();
  }

  // ---------------------------------------------------------------------------
  // Consequences of the order of the strips

  /** `strip("-")` removes every leading and trailing hyphen, not just one. */
  lemma {:induction false} NormalizeStripsAllHyphens(s: string)
    requires |s| == 5 && s[0] == '-' && s[1] == '-' && s[2] == 'x' && s[3] == '-' && s[4] == '-'
    ensures Normalize(s) == s[2..3]
  {
    HyphensAround(s);
  }

  /** A hyphen shielded by a space survives, so normalising twice can differ from
      normalising once. */
  lemma {:induction false} NormalizeNotIdempotent(s: string)
    requires |s| == 4 && s[0] == '-' && s[1] == ' ' && s[2] == '-' && s[3] == 'x'
    ensures Normalize(s) == s[2..] && Normalize(Normalize(s)) == s[3..]
    ensures Normalize(Normalize(s)) != Normalize(s)
  {
    ShieldedHyphen(s);
    ExposedHyphen(s[2..]);
    assert s[2..][1..] == s[3..];
  }
}
