/** The value types and string helpers the parser relies on: Python's `str.isspace`,
    `str.strip`, `str.strip("-")`, `str.split()`, ASCII `str.upper()` and the
    substitution `re.sub(r"[ \t]+", " ", s)`, all restricted to ASCII. */
module Wrappers {
  datatype Option<+T> = None | Some(value: T)
}

module Text {

  /** Python's `str.isspace()` (and the regex class `\s`) on ASCII characters:
      space, \t \n \v \f \r, and the separators 0x1C-0x1F. */
  predicate IsSpace(c: char) {
    c == ' ' || '\t' <= c <= '\r' || '\U{1C}' <= c <= '\U{1F}'
  }

  /** The class `[ \t]`. */
  predicate IsBlank(c: char) {
    c == ' ' || c == '\t'
  }

  /** The character sets the parser strips or collapses. */
  datatype CharClass = Whitespace | Hyphen | Blank

  predicate In(c: char, k: CharClass) {
    match k
    case Whitespace => IsSpace(c)
    case Hyphen => c == '-'
    case Blank => IsBlank(c)
  }

  /** ASCII lower-casing, used for case-insensitive matching. */
  function Lower(c: char): char {
    if 'A' <= c <= 'Z' then (c as int + 32) as char else c
  }

  /** ASCII `str.upper()` of one character. */
  function Upper(c: char): (u: char)
    ensures 'a' <= c <= 'z' ==> 'A' <= u <= 'Z' && Lower(u) == c
    ensures !('a' <= c <= 'z') ==> u == c
  {
    if 'a' <= c <= 'z' then (c as int - 32) as char else c
  }

  predicate AllSpace(s: string) {
    forall i :: 0 <= i < |s| ==> IsSpace(s[i])
  }

  /** The end of the run of characters in class `drop` that starts at `i`. */
  function RunEnd(s: string, drop: CharClass, i: nat): (k: nat)
    requires i <= |s|
    ensures i <= k <= |s|
    ensures forall m :: i <= m < k ==> In(s[m], drop)
    ensures k == |s| || !In(s[k], drop)
    decreases |s| - i
  {
    if i < |s| && In(s[i], drop) then RunEnd(s, drop, i + 1) else i
  }

  /** The start of the run of characters in class `drop` that ends at `j`, going
      no lower than `lo`. */
  function RunStart(s: string, drop: CharClass, lo: nat, j: nat): (k: nat)
    requires lo <= j <= |s|
    ensures lo <= k <= j
    ensures forall m :: k <= m < j ==> In(s[m], drop)
    ensures k == lo || !In(s[k - 1], drop)
    decreases j - lo
  {
    if lo < j && In(s[j - 1], drop) then RunStart(s, drop, lo, j - 1) else j
  }

  lemma {:induction false} RunEndIs(s: string, drop: CharClass, i: nat, k: nat)
    requires i <= k <= |s|
    requires forall m :: i <= m < k ==> In(s[m], drop)
    requires k == |s| || !In(s[k], drop)
    ensures RunEnd(s, drop, i) == k
    decreases k - i
  {
    if i < k {
      RunEndIs(s, drop, i + 1, k);
    }
  }

  lemma {:induction false} RunStartIs(s: string, drop: CharClass, lo: nat, j: nat, k: nat)
    requires lo <= k <= j <= |s|
    requires forall m :: k <= m < j ==> In(s[m], drop)
    requires k == lo || !In(s[k - 1], drop)
    ensures RunStart(s, drop, lo, j) == k
    decreases j - k
  {
    if k < j {
      RunStartIs(s, drop, lo, j - 1, k);
    }
  }

  /** How many characters `Trim` drops at the front. */
  function Lead(s: string, drop: CharClass): nat {
    RunEnd(s, drop, 0)
  }

  /** Where what `Trim` keeps ends. */
  function Tail(s: string, drop: CharClass): nat {
    RunStart(s, drop, Lead(s, drop), |s|)
  }

  /** The suffix of `s` left after dropping its leading characters in class `drop`. */
  function TrimLeft(s: string, drop: CharClass): (r: string)
    ensures |r| <= |s|
    ensures r == [] || !In(r[0], drop)
    ensures s != [] && In(s[0], drop) ==> |r| < |s|
  {
    s[Lead(s, drop)..]
  }

  /** Python's `s.strip(chars)`: the slice `s[i..j]` that remains when the maximal
      runs of characters in class `drop` at both ends are removed; everything
      outside it is in the class. */
  function Trim(s: string, drop: CharClass): (r: string)
    ensures r == [] || (!In(r[0], drop) && !In(r[|r| - 1], drop))
    ensures |r| <= |s|
  {
    s[Lead(s, drop)..Tail(s, drop)]
  }

  /** `TrimLeft` drops exactly the first `k` characters when those are in the
      class and the next one is not. */
  lemma {:induction false} TrimLeftIs(s: string, drop: CharClass, k: nat)
    requires k <= |s|
    requires forall i :: 0 <= i < k ==> In(s[i], drop)
    requires k == |s| || !In(s[k], drop)
    ensures TrimLeft(s, drop) == s[k..] && Lead(s, drop) == k
  {
    RunEndIs(s, drop, 0, k);
  }

  /** `Trim` drops exactly `a` characters at the front and `b` at the back when
      those are in the class and the ones next to them are not. */
  lemma {:induction false} TrimIs(s: string, drop: CharClass, a: nat, b: nat)
    requires a + b < |s|
    requires forall i :: 0 <= i < a ==> In(s[i], drop)
    requires forall i :: |s| - b <= i < |s| ==> In(s[i], drop)
    requires !In(s[a], drop) && !In(s[|s| - b - 1], drop)
    ensures Trim(s, drop) == s[a..|s| - b]
  {
    RunEndIs(s, drop, 0, a);
    RunStartIs(s, drop, a, |s|, |s| - b);
  }

  /** Text whose ends are outside the class is its own trim. */
  lemma {:induction false} TrimKeeps(s: string, drop: CharClass)
    requires s == [] || (!In(s[0], drop) && !In(s[|s| - 1], drop))
    ensures Trim(s, drop) == s
  {
    if s != [] {
      TrimIs(s, drop, 0, 0);
    }
  }

  /** Text wholly in the class strips to nothing. */
  lemma {:induction false} TrimAll(s: string, drop: CharClass)
    requires forall i :: 0 <= i < |s| ==> In(s[i], drop)
    ensures Trim(s, drop) == []
  {
    RunEndIs(s, drop, 0, |s|);
  }

  /** `s.strip()` */
  function Strip(s: string): string {
    Trim(s, Whitespace)
  }

  /** `s.strip("-")`: every leading and trailing hyphen goes, not just one. */
  function StripHyphens(s: string): string {
    Trim(s, Hyphen)
  }

  predicate NoTab(s: string) {
    forall i :: 0 <= i < |s| ==> s[i] != '\t'
  }

  /** Two spaces in a row end at `i`. */
  predicate DoubleSpaceAt(s: string, i: nat)
    requires 0 < i < |s|
  {
    s[i - 1] == ' ' && s[i] == ' '
  }

  predicate NoDoubleSpace(s: string) {
    forall i: nat :: 0 < i < |s| ==> !DoubleSpaceAt(s, i)
  }

  /** `re.sub(r"[ \t]+", " ", s)`: every maximal run of spaces and tabs becomes one space. */
  function CollapseBlanks(s: string): (r: string)
    ensures |r| <= |s|
    decreases |s|
  {
    if s == [] then []
    else if IsBlank(s[0]) then " " + CollapseBlanks(TrimLeft(s, Blank))
    else [s[0]] + CollapseBlanks(s[1..])
  }

  /** Collapsing keeps text empty or not, and maps the end characters the way it
      maps any character: a space or tab becomes a space. */
  lemma {:induction false} CollapseBlanksEnds(s: string)
    ensures (CollapseBlanks(s) == []) == (s == [])
    ensures s != [] ==> CollapseBlanks(s)[0] == (if IsBlank(s[0]) then ' ' else s[0])
    ensures s != [] ==> var r := CollapseBlanks(s);
      r[|r| - 1] == (if IsBlank(s[|s| - 1]) then ' ' else s[|s| - 1])
    decreases |s|
  {
    if s != [] {
      if IsBlank(s[0]) {
        var k := Lead(s, Blank);
        var rest := s[k..];
        assert TrimLeft(s, Blank) == rest;
        CollapseBlanksEnds(rest);
        if rest != [] {
          assert rest[|rest| - 1] == s[|s| - 1];
        }
      } else {
        CollapseBlanksEnds(s[1..]);
      }
    }
  }

  lemma {:induction false} CleanPrepend(c: char, t: string)
    requires NoTab(t) && NoDoubleSpace(t) && c != '\t'
    requires c == ' ' ==> t == [] || t[0] != ' '
    ensures NoTab([c] + t) && NoDoubleSpace([c] + t)
  {
    var r := [c] + t;
    forall i: nat | 0 < i < |r| ensures !DoubleSpaceAt(r, i) {
      if i > 1 {
        assert r[i - 1] == t[i - 2] && r[i] == t[i - 1];
        assert !DoubleSpaceAt(t, i - 1);
      }
    }
  }

  /** The result has no tab and never two spaces in a row. */
  lemma {:induction false} CollapseBlanksClean(s: string)
    ensures NoTab(CollapseBlanks(s)) && NoDoubleSpace(CollapseBlanks(s))
    decreases |s|
  {
    if s != [] {
      if IsBlank(s[0]) {
        var rest := TrimLeft(s, Blank);
        CollapseBlanksClean(rest);
        CollapseBlanksEnds(rest);
        CleanPrepend(' ', CollapseBlanks(rest));
      } else {
        CollapseBlanksClean(s[1..]);
        CleanPrepend(s[0], CollapseBlanks(s[1..]));
      }
    }
  }

  /** Text without spaces or tabs is left as it is. */
  lemma {:induction false} CollapseNoBlanks(s: string)
    requires forall i :: 0 <= i < |s| ==> !IsBlank(s[i])
    ensures CollapseBlanks(s) == s
    decreases |s|
  {
    if s != [] {
      CollapseNoBlanks(s[1..]);
      assert s == [s[0]] + s[1..];
    }
  }

  /** Collapsing past a character that is not a space or tab keeps it. */
  lemma {:induction false} CollapseConsWord(c: char, z: string)
    requires !IsBlank(c)
    ensures CollapseBlanks([c] + z) == [c] + CollapseBlanks(z)
  {
    assert ([c] + z)[1..] == z;
  }

  /** A run of spaces and tabs in front of text that does not start with one
      becomes one space. */
  lemma {:induction false} CollapseRunThen(b: string, z: string)
    requires b != [] && forall i :: 0 <= i < |b| ==> IsBlank(b[i])
    requires z == [] || !IsBlank(z[0])
    ensures CollapseBlanks(b + z) == " " + CollapseBlanks(z)
  {
    var s := b + z;
    assert forall i :: 0 <= i < |b| ==> s[i] == b[i];
    assert z != [] ==> s[|b|] == z[0];
    TrimLeftIs(s, Blank, |b|);
    assert s[|b|..] == z;
  }

  /** A run of spaces and tabs becomes one space. */
  lemma {:induction false} CollapseRun(b: string)
    requires b != [] && forall i :: 0 <= i < |b| ==> IsBlank(b[i])
    ensures CollapseBlanks(b) == " "
  {
    CollapseRunThen(b, []);
    assert b + [] == b;
  }

  lemma {:induction false} AppendAssoc(p: string, q: string, r: string)
    ensures p + (q + r) == (p + q) + r
  {
  }

  lemma {:induction false} CollapseAppendWord(c: char, a: string, y: string)
    requires !IsBlank(c)
    requires CollapseBlanks(a + y) == CollapseBlanks(a) + CollapseBlanks(y)
    ensures CollapseBlanks([c] + (a + y)) == CollapseBlanks([c] + a) + CollapseBlanks(y)
  {
    CollapseConsWord(c, a + y);
    CollapseConsWord(c, a);
    AppendAssoc([c], CollapseBlanks(a), CollapseBlanks(y));
  }

  lemma {:induction false} CollapseAppendRun(b: string, a: string, y: string)
    requires b != [] && forall i :: 0 <= i < |b| ==> IsBlank(b[i])
    requires a != [] && !IsBlank(a[0])
    requires CollapseBlanks(a + y) == CollapseBlanks(a) + CollapseBlanks(y)
    ensures CollapseBlanks(b + (a + y)) == CollapseBlanks(b + a) + CollapseBlanks(y)
  {
    var z := a + y;
    assert z[0] == a[0];
    CollapseRunThen(b, z);
    CollapseRunThen(b, a);
    AppendAssoc(" ", CollapseBlanks(a), CollapseBlanks(y));
  }

  /** Text splits into parts collapsed separately wherever no run of spaces and
      tabs straddles the cut. */
  lemma {:induction false} CollapseAppend(x: string, y: string)
    requires x == [] || y == [] || !IsBlank(x[|x| - 1]) || !IsBlank(y[0])
    ensures CollapseBlanks(x + y) == CollapseBlanks(x) + CollapseBlanks(y)
    decreases |x|
  {
    if x == [] {
      assert x + y == y;
    } else if y == [] {
      assert x + y == x;
    } else if !IsBlank(x[0]) {
      var a := x[1..];
      assert a == [] || a[|a| - 1] == x[|x| - 1];
      CollapseAppend(a, y);
      CollapseAppendWord(x[0], a, y);
      assert x == [x[0]] + a;
      AppendAssoc([x[0]], a, y);
    } else {
      var k := Lead(x, Blank);
      var b, a := x[..k], x[k..];
      assert x == b + a;
      if k < |x| {
        assert a[|a| - 1] == x[|x| - 1];
        CollapseAppend(a, y);
        CollapseAppendRun(b, a, y);
        AppendAssoc(b, a, y);
      } else {
        assert a == [] && b == x;
        CollapseRun(x);
        CollapseRunThen(x, y);
      }
    }
  }

  /** Between two characters that are not spaces or tabs, a run of spaces and
      tabs becomes exactly one space. */
  lemma {:induction false} CollapseGap(x: string, b: string, y: string)
    requires x != [] && !IsBlank(x[|x| - 1])
    requires b != [] && forall i :: 0 <= i < |b| ==> IsBlank(b[i])
    requires y != [] && !IsBlank(y[0])
    ensures CollapseBlanks(x + b + y) == CollapseBlanks(x) + " " + CollapseBlanks(y)
  {
    CollapseAppend(x, b);
    assert (x + b)[|x + b| - 1] == b[|b| - 1];
    CollapseAppend(x + b, y);
    CollapseRun(b);
  }

  /** The characters of `s` other than spaces and tabs, in order. */
  function NonBlanks(s: string): string
    decreases |s|
  {
    if s == [] then [] else (if IsBlank(s[0]) then [] else [s[0]]) + NonBlanks(s[1..])
  }

  lemma {:induction false} NonBlanksAppend(a: string, b: string)
    ensures NonBlanks(a + b) == NonBlanks(a) + NonBlanks(b)
    decreases |a|
  {
    if a == [] {
      assert a + b == b;
    } else {
      assert (a + b)[0] == a[0];
      assert (a + b)[1..] == a[1..] + b;
      NonBlanksAppend(a[1..], b);
    }
  }

  lemma {:induction false} NonBlanksNone(s: string)
    requires forall i :: 0 <= i < |s| ==> IsBlank(s[i])
    ensures NonBlanks(s) == []
    decreases |s|
  {
    if s != [] {
      NonBlanksNone(s[1..]);
    }
  }

  lemma {:induction false} NonBlanksOfTrimmed(s: string)
    ensures NonBlanks(TrimLeft(s, Blank)) == NonBlanks(s)
  {
    var k := Lead(s, Blank);
    assert s == s[..k] + s[k..];
    NonBlanksNone(s[..k]);
    NonBlanksAppend(s[..k], s[k..]);
  }

  /** Collapsing blank runs deletes and rewrites only spaces and tabs: every other
      character survives, in order. */
  lemma {:induction false} CollapseBlanksKeepsText(s: string)
    ensures NonBlanks(CollapseBlanks(s)) == NonBlanks(s)
    decreases |s|
  {
    if s == [] {
    } else if IsBlank(s[0]) {
      var rest := TrimLeft(s, Blank);
      CollapseBlanksKeepsText(rest);
      NonBlanksAppend(" ", CollapseBlanks(rest));
      NonBlanksOfTrimmed(s);
    } else {
      CollapseBlanksKeepsText(s[1..]);
      NonBlanksAppend([s[0]], CollapseBlanks(s[1..]));
    }
  }

  // ---------------------------------------------------------------------------
  // str.split() with no argument

  /** The end of the run of whitespace that starts at `i`. */
  function SpaceEnd(t: string, i: nat): (k: nat)
    requires i <= |t|
    ensures i <= k <= |t|
    ensures forall m :: i <= m < k ==> IsSpace(t[m])
    ensures k == |t| || !IsSpace(t[k])
    decreases |t| - i
  {
    if i < |t| && IsSpace(t[i]) then SpaceEnd(t, i + 1) else i
  }

  /** The end of the run of non-whitespace that starts at `i`. */
  function WordEnd(t: string, i: nat): (k: nat)
    requires i <= |t|
    ensures i <= k <= |t|
    ensures forall m :: i <= m < k ==> !IsSpace(t[m])
    ensures k == |t| || IsSpace(t[k])
    decreases |t| - i
  {
    if i < |t| && !IsSpace(t[i]) then WordEnd(t, i + 1) else i
  }

  lemma {:induction false} SpaceEndIs(t: string, i: nat, k: nat)
    requires i <= k <= |t|
    requires forall m :: i <= m < k ==> IsSpace(t[m])
    requires k == |t| || !IsSpace(t[k])
    ensures SpaceEnd(t, i) == k
    decreases k - i
  {
    if i < k {
      SpaceEndIs(t, i + 1, k);
    }
  }

  lemma {:induction false} WordEndIs(t: string, i: nat, k: nat)
    requires i <= k <= |t|
    requires forall m :: i <= m < k ==> !IsSpace(t[m])
    requires k == |t| || IsSpace(t[k])
    ensures WordEnd(t, i) == k
    decreases k - i
  {
    if i < k {
      WordEndIs(t, i + 1, k);
    }
  }

  predicate IsWord(w: string) {
    w != [] && forall i :: 0 <= i < |w| ==> !IsSpace(w[i])
  }

  /** `s.split()`: the maximal whitespace-free runs of `s`, left to right. */
  function Split(s: string): seq<string>
    decreases |s|
  {
    var j := SpaceEnd(s, 0);
    if j == |s| then [] else [s[j..WordEnd(s, j)]] + Split(s[WordEnd(s, j)..])
  }

  /** Every token is a non-empty whitespace-free word, and there are none exactly
      when the text is all whitespace. */
  lemma {:induction false} SplitWords(s: string)
    ensures forall k :: 0 <= k < |Split(s)| ==> IsWord(Split(s)[k])
    ensures (Split(s) == []) == AllSpace(s)
    decreases |s|
  {
    var j := SpaceEnd(s, 0);
    if j < |s| {
      var k := WordEnd(s, j);
      SplitWords(s[k..]);
      var words := Split(s);
      assert IsWord(s[j..k]);
      assert forall n :: 0 < n < |words| ==> words[n] == Split(s[k..])[n - 1];
    }
  }

  /** `" ".join(words)` */
  function Join(words: seq<string>): string
    decreases |words|
  {
    if words == [] then ""
    else if |words| == 1 then words[0]
    else words[0] + " " + Join(words[1..])
  }

  /** A word followed by whitespace (or nothing) is the first token. */
  lemma {:induction false} SplitCons(w: string, rest: string)
    requires IsWord(w)
    requires rest == [] || IsSpace(rest[0])
    ensures Split(w + rest) == [w] + Split(rest)
  {
    var s := w + rest;
    SpaceEndIs(s, 0, 0);
    WordEndIs(s, 0, |w|);
    assert s[0..|w|] == w;
    assert s[|w|..] == rest;
  }

  /** Whitespace up to `n`, then a word up to `e`: that word is the first token. */
  lemma {:induction false} SplitAt(u: string, n: nat, e: nat)
    requires n < e <= |u|
    requires forall m :: 0 <= m < n ==> IsSpace(u[m])
    requires forall m :: n <= m < e ==> !IsSpace(u[m])
    requires e == |u| || IsSpace(u[e])
    ensures Split(u) == [u[n..e]] + Split(u[e..])
  {
    SpaceEndIs(u, 0, n);
    WordEndIs(u, n, e);
  }

  /** The pieces of `ws + (w + rest)` at their offsets. */
  lemma {:induction false} PaddedPieces(ws: string, w: string, rest: string)
    ensures var u, n := ws + (w + rest), |ws|;
      u[n..n + |w|] == w && u[n + |w|..] == rest
  {
  }

  /** A word after whitespace, followed by whitespace or nothing, is the first token. */
  lemma {:induction false} SplitPadCons(ws: string, w: string, rest: string)
    requires AllSpace(ws) && IsWord(w)
    requires rest == [] || IsSpace(rest[0])
    ensures Split(ws + (w + rest)) == [w] + Split(rest)
  {
    var u, n := ws + (w + rest), |ws|;
    forall m | 0 <= m < n ensures IsSpace(u[m]) {
      assert u[m] == ws[m];
    }
    forall m | n <= m < n + |w| ensures !IsSpace(u[m]) {
      assert u[m] == w[m - n];
    }
    if rest != [] {
      assert u[n + |w|] == rest[0];
    }
    SplitAt(u, n, n + |w|);
    PaddedPieces(ws, w, rest);
  }

  /** Leading whitespace does not change the tokens. */
  lemma {:induction false} SplitLeading(ws: string, s: string)
    requires AllSpace(ws)
    ensures Split(ws + s) == Split(s)
  {
    var j := SpaceEnd(s, 0);
    if j == |s| {
      var t := ws + s;
      forall m | 0 <= m < |t| ensures IsSpace(t[m]) {
        if m < |ws| {
          assert t[m] == ws[m];
        } else {
          assert t[m] == s[m - |ws|];
        }
      }
      SplitWords(t);
      SplitWords(s);
    } else {
      var k := WordEnd(s, j);
      var lead, w, rest := s[..j], s[j..k], s[k..];
      assert s == lead + (w + rest);
      assert k < |s| ==> rest[0] == s[k];
      SplitPadCons(lead, w, rest);
      forall m | 0 <= m < |ws + lead| ensures IsSpace((ws + lead)[m]) {
        if m < |ws| {
          assert (ws + lead)[m] == ws[m];
        } else {
          assert (ws + lead)[m] == lead[m - |ws|];
        }
      }
      SplitPadCons(ws + lead, w, rest);
      AppendAssoc(ws, lead, w + rest);
    }
  }

  /** Trailing whitespace does not change the tokens. */
  lemma {:induction false} SplitTrailing(s: string, ws: string)
    requires AllSpace(ws)
    ensures Split(s + ws) == Split(s)
    decreases |s|
  {
    var t := s + ws;
    var j := SpaceEnd(s, 0);
    if j == |s| {
      forall m | 0 <= m < |t| ensures IsSpace(t[m]) {
        if m < |s| {
          assert t[m] == s[m];
        } else {
          assert t[m] == ws[m - |s|];
        }
      }
      SpaceEndIs(t, 0, |t|);
    } else {
      forall m | 0 <= m < j ensures IsSpace(t[m]) {
        assert t[m] == s[m];
      }
      assert t[j] == s[j];
      SpaceEndIs(t, 0, j);
      var k := WordEnd(s, j);
      forall m | j <= m < k ensures !IsSpace(t[m]) {
        assert t[m] == s[m];
      }
      if k < |s| {
        assert t[k] == s[k];
      } else if ws != [] {
        assert t[k] == ws[0];
      }
      WordEndIs(t, j, k);
      assert t[j..k] == s[j..k];
      assert t[k..] == s[k..] + ws;
      SplitTrailing(s[k..], ws);
    }
  }

  /** `s.strip().split()` is `s.split()`. */
  lemma {:induction false} SplitStrip(s: string)
    ensures Split(Strip(s)) == Split(s)
  {
    var a, b := Lead(s, Whitespace), Tail(s, Whitespace);
    assert s == s[..a] + (s[a..b] + s[b..]);
    assert AllSpace(s[..a]) by {
      forall i | 0 <= i < a ensures IsSpace(s[..a][i]) {
        assert In(s[i], Whitespace);
      }
    }
    assert AllSpace(s[b..]) by {
      forall i | 0 <= i < |s| - b ensures IsSpace(s[b..][i]) {
        assert In(s[b + i], Whitespace);
      }
    }
    SplitLeading(s[..a], s[a..b] + s[b..]);
    SplitTrailing(s[a..b], s[b..]);
  }

  /** `str.split()` undoes `" ".join` on whitespace-free, non-empty words. */
  lemma {:induction false} SplitJoin(words: seq<string>)
    requires forall i :: 0 <= i < |words| ==> IsWord(words[i])
    ensures Split(Join(words)) == words
    decreases |words|
  {
    if words == [] {
    } else if |words| == 1 {
      SplitCons(words[0], []);
      assert words[0] + [] == words[0];
    } else {
      var w, tail := words[0], words[1..];
      var rest := Join(tail);
      assert Join(words) == w + (" " + rest);
      SplitCons(w, " " + rest);
      SplitLeading(" ", rest);
      SplitJoin(tail);
      assert words == [w] + tail;
    }
  }

  // ---------------------------------------------------------------------------
  // The strips of a value, on three small inputs

  /** "--x--": both runs of hyphens go. */
  lemma {:induction false} HyphensAround(s: string)
    requires |s| == 5 && s[0] == '-' && s[1] == '-' && s[2] == 'x' && s[3] == '-' && s[4] == '-'
    ensures Strip(StripHyphens(Strip(s))) == s[2..3] && CollapseBlanks(s[2..3]) == s[2..3]
  {
    TrimKeeps(s, Whitespace);
    TrimLeftIs(s, Hyphen, 2);
    var r := StripHyphens(s);
    assert Lead(s, Hyphen) == 2;
    assert |r| == 1;
    TrimKeeps(r, Whitespace);
    CollapseNoBlanks(r);
  }

  /** "- -x": the space shields the second hyphen, which the last strip exposes. */
  lemma {:induction false} ShieldedHyphen(s: string)
    requires |s| == 4 && s[0] == '-' && s[1] == ' ' && s[2] == '-' && s[3] == 'x'
    ensures Strip(StripHyphens(Strip(s))) == s[2..] && CollapseBlanks(s[2..]) == s[2..]
  {
    TrimKeeps(s, Whitespace);
    TrimLeftIs(s, Hyphen, 1);
    TrimKeeps(s[1..], Hyphen);
    TrimLeftIs(s[1..], Whitespace, 1);
    assert s[1..][1..] == s[2..];
    TrimKeeps(s[2..], Whitespace);
    CollapseNoBlanks(s[2..]);
  }

  /** "-x": the hyphen goes. */
  lemma {:induction false} ExposedHyphen(s: string)
    requires |s| == 2 && s[0] == '-' && s[1] == 'x'
    ensures Strip(StripHyphens(Strip(s))) == s[1..] && CollapseBlanks(s[1..]) == s[1..]
  {
    TrimKeeps(s, Whitespace);
    TrimLeftIs(s, Hyphen, 1);
    TrimKeeps(s[1..], Hyphen);
    TrimKeeps(s[1..], Whitespace);
    CollapseNoBlanks(s[1..]);
  }
}
