/** The fragment of Python's `re` that the parser's patterns use, compiled with
    `re.IGNORECASE`: literal characters (compared case-insensitively, ASCII only),
    an optional literal (`'?`), `\s*` and `\s+`. `MatchAt` follows the backtracking
    engine's priority order (greedy repetition that gives back one character at a
    time); `Derives` is the plain relational meaning of a pattern, and the two are
    proved to agree on whether a match exists. */
module Regex {
  import opened Wrappers
  import opened Text

  datatype Atom =
    | Char(c: char)      // one literal character
    | OptChar(c: char)   // `c?`
    | Spaces0            // `\s*`
    | Spaces1            // `\s+`

  type Pattern = seq<Atom>

  /** A match `text[start..end]`, as `m.start()` and `m.end()` report it. */
  datatype Span = Span(start: nat, end: nat)

  /** Case-insensitive character comparison. */
  predicate Same(x: char, c: char) {
    Lower(x) == Lower(c)
  }

  /** A pattern that begins with a literal can only match non-empty text. */
  predicate Solid(p: Pattern) {
    p != [] && p[0].Char?
  }

  /** The end of the match of `p` anchored at `i` that the engine reports, if any. */
  function MatchAt(p: Pattern, t: string, i: nat): (r: Option<nat>)
    requires i <= |t|
    ensures r.Some? ==> i <= r.value <= |t|
    ensures r.Some? && Solid(p) ==> i < r.value
    decreases |p|, 1, 0
  {
    if p == [] then Some(i)
    else
      match p[0]
      case Char(c) =>
        if i < |t| && Same(t[i], c) then MatchAt(p[1..], t, i + 1) else None
      case OptChar(c) =>
        var taken := if i < |t| && Same(t[i], c) then MatchAt(p[1..], t, i + 1) else None;
        if taken.Some? then taken else MatchAt(p[1..], t, i)
      case Spaces0 =>
        Retreat(p[1..], t, i, SpaceEnd(t, i))
      case Spaces1 =>
        if i < |t| && IsSpace(t[i]) then Retreat(p[1..], t, i + 1, SpaceEnd(t, i)) else None
  }

  /** Greedy repetition giving back: try the rest of the pattern at `k`, `k - 1`, ..., `lo`. */
  function Retreat(p: Pattern, t: string, lo: nat, k: nat): (r: Option<nat>)
    requires lo <= k <= |t|
    ensures r.Some? ==> lo <= r.value <= |t|
    decreases |p|, 2, k - lo
  {
    var m := MatchAt(p, t, k);
    if m.Some? then m else if k == lo then None else Retreat(p, t, lo, k - 1)
  }

  /** `p` can match exactly `t[i..j]`. */
  ghost predicate Derives(p: Pattern, t: string, i: nat, j: nat)
    requires i <= |t|
    decreases |p|, |t| - i
  {
    if p == [] then i == j
    else
      match p[0]
      case Char(c) =>
        i < |t| && Same(t[i], c) && Derives(p[1..], t, i + 1, j)
      case OptChar(c) =>
        (i < |t| && Same(t[i], c) && Derives(p[1..], t, i + 1, j)) || Derives(p[1..], t, i, j)
      case Spaces0 =>
        Derives(p[1..], t, i, j) || (i < |t| && IsSpace(t[i]) && Derives(p, t, i + 1, j))
      case Spaces1 =>
        i < |t| && IsSpace(t[i]) && Derives([Spaces0] + p[1..], t, i + 1, j)
  }

  // ---------------------------------------------------------------------------
  // Soundness: what the engine reports is a match.

  lemma {:induction false} SpacesThen(rest: Pattern, t: string, i: nat, k: nat, j: nat)
    requires i <= k <= |t|
    requires forall m :: i <= m < k ==> IsSpace(t[m])
    requires Derives(rest, t, k, j)
    ensures Derives([Spaces0] + rest, t, i, j)
    decreases k - i
  {
    var p := [Spaces0] + rest;
    assert p[1..] == rest;
    if i < k {
      SpacesThen(rest, t, i + 1, k, j);
    }
  }

  lemma {:induction false} MatchAtSound(p: Pattern, t: string, i: nat)
    requires i <= |t| && MatchAt(p, t, i).Some?
    ensures Derives(p, t, i, MatchAt(p, t, i).value)
    decreases |p|, 1, 0
  {
    if p != [] {
      match p[0]
      case Char(c) =>
        MatchAtSound(p[1..], t, i + 1);
      case OptChar(c) =>
        if i < |t| && Same(t[i], c) && MatchAt(p[1..], t, i + 1).Some? {
          MatchAtSound(p[1..], t, i + 1);
        } else {
          MatchAtSound(p[1..], t, i);
        }
      case Spaces0 =>
        RetreatSound(p[1..], t, i, i, SpaceEnd(t, i));
        assert p == [Spaces0] + p[1..];
      case Spaces1 =>
        RetreatSound(p[1..], t, i + 1, i + 1, SpaceEnd(t, i));
    }
  }

  lemma {:induction false} RetreatSound(p: Pattern, t: string, i: nat, lo: nat, k: nat)
    requires i <= lo <= k <= |t|
    requires forall m :: i <= m < k ==> IsSpace(t[m])
    requires Retreat(p, t, lo, k).Some?
    ensures Derives([Spaces0] + p, t, i, Retreat(p, t, lo, k).value)
    decreases |p|, 2, k - lo
  {
    if MatchAt(p, t, k).Some? {
      MatchAtSound(p, t, k);
      SpacesThen(p, t, i, k, MatchAt(p, t, k).value);
    } else {
      RetreatSound(p, t, i, lo, k - 1);
    }
  }

  // ---------------------------------------------------------------------------
  // Completeness: if any match exists, the engine reports one.

  /** A derivation of `\s*` followed by `rest` splits at some point of the whitespace run. */
  lemma {:induction false} SpacesSplit(rest: Pattern, t: string, i: nat, j: nat) returns (k: nat)
    requires i <= |t|
    requires Derives([Spaces0] + rest, t, i, j)
    ensures i <= k <= SpaceEnd(t, i) && Derives(rest, t, k, j)
    decreases |t| - i
  {
    var p := [Spaces0] + rest;
    assert p[1..] == rest;
    if Derives(rest, t, i, j) {
      k := i;
    } else {
      k := SpacesSplit(rest, t, i + 1, j);
    }
  }

  lemma {:induction false} MatchAtComplete(p: Pattern, t: string, i: nat, j: nat)
    requires i <= |t| && Derives(p, t, i, j)
    ensures MatchAt(p, t, i).Some?
    decreases |p|, 1, 0
  {
    if p != [] {
      match p[0]
      case Char(c) =>
        MatchAtComplete(p[1..], t, i + 1, j);
      case OptChar(c) =>
        if i < |t| && Same(t[i], c) && Derives(p[1..], t, i + 1, j) {
          MatchAtComplete(p[1..], t, i + 1, j);
        } else {
          MatchAtComplete(p[1..], t, i, j);
        }
      case Spaces0 =>
        assert p == [Spaces0] + p[1..];
        var k := SpacesSplit(p[1..], t, i, j);
        RetreatComplete(p[1..], t, i, SpaceEnd(t, i), k, j);
      case Spaces1 =>
        var k := SpacesSplit(p[1..], t, i + 1, j);
        RetreatComplete(p[1..], t, i + 1, SpaceEnd(t, i), k, j);
    }
  }

  lemma {:induction false} RetreatComplete(p: Pattern, t: string, lo: nat, hi: nat, k: nat, j: nat)
    requires lo <= k <= hi <= |t|
    requires Derives(p, t, k, j)
    ensures Retreat(p, t, lo, hi).Some?
    decreases |p|, 2, hi - k
  {
    if MatchAt(p, t, hi).None? {
      if hi == k {
        MatchAtComplete(p, t, k, j);
      } else {
        RetreatComplete(p, t, lo, hi - 1, k, j);
      }
    }
  }

  // ---------------------------------------------------------------------------
  // re.search and re.finditer

  /** No match of `p` starts at any position of `[a, b)`. */
  predicate NoMatchIn(p: Pattern, t: string, a: nat, b: nat) {
    forall k :: a <= k < b && k <= |t| ==> MatchAt(p, t, k).None?
  }

  /** `re.search(p, t[from:])` offset by `from`: the match at the leftmost position that has one. */
  function Search(p: Pattern, t: string, from: nat): (r: Option<Span>)
    requires from <= |t|
    ensures r.Some? ==> from <= r.value.start <= r.value.end <= |t|
    ensures r.Some? ==> MatchAt(p, t, r.value.start) == Some(r.value.end)
    ensures NoMatchIn(p, t, from, if r.Some? then r.value.start else |t| + 1)
    decreases |t| - from
  {
    match MatchAt(p, t, from)
    case Some(e) => Some(Span(from, e))
    case None => if from == |t| then None else Search(p, t, from + 1)
  }

  /** What `Search` reports is a match, it is leftmost among all matches, and it
      reports nothing only when `p` matches nowhere. */
  lemma {:induction false} SearchIsLeftmost(p: Pattern, t: string)
    ensures Search(p, t, 0).Some? ==>
      Derives(p, t, Search(p, t, 0).value.start, Search(p, t, 0).value.end)
    ensures forall k, j :: 0 <= k <= |t| && Derives(p, t, k, j) ==>
      Search(p, t, 0).Some? && Search(p, t, 0).value.start <= k
  {
    var r := Search(p, t, 0);
    if r.Some? {
      MatchAtSound(p, t, r.value.start);
    }
    forall k, j | 0 <= k <= |t| && Derives(p, t, k, j)
      ensures r.Some? && r.value.start <= k
    {
      MatchAtComplete(p, t, k, j);
    }
  }

  /** `list(re.finditer(p, t[from:]))` for a pattern that cannot match empty text:
      each search resumes where the previous match ended. */
  function FindAll(p: Pattern, t: string, from: nat): (r: seq<Span>)
    requires Solid(p) && from <= |t|
    ensures forall i :: 0 <= i < |r| ==> from <= r[i].start < r[i].end <= |t|
    ensures forall i :: 0 <= i < |r| ==> MatchAt(p, t, r[i].start) == Some(r[i].end)
    ensures forall i :: 0 < i < |r| ==> r[i - 1].end <= r[i].start
    decreases |t| - from
  {
    match Search(p, t, from)
    case None => []
    case Some(m) =>
      var rest := FindAll(p, t, m.end);
      var r := [m] + rest;
      assert forall i :: 0 < i < |r| ==> r[i] == rest[i - 1];
      r
  }

  /** `FindAll` misses no match before the first one it reports (or anywhere, when
      it reports none). */
  lemma {:induction false} FindAllFirst(p: Pattern, t: string, from: nat)
    requires Solid(p) && from <= |t|
    ensures var r := FindAll(p, t, from);
      NoMatchIn(p, t, from, if r == [] then |t| + 1 else r[0].start)
  {
    match Search(p, t, from)
    case None =>
    case Some(m) =>
      assert FindAll(p, t, from)[0] == m;
  }

  /** `FindAll` misses no match between two consecutive matches it reports. */
  lemma {:induction false} FindAllBetween(p: Pattern, t: string, from: nat, i: nat)
    requires Solid(p) && from <= |t|
    requires 0 < i < |FindAll(p, t, from)|
    ensures NoMatchIn(p, t, FindAll(p, t, from)[i - 1].end, FindAll(p, t, from)[i].start)
    decreases |t| - from
  {
    var r := FindAll(p, t, from);
    var m := Search(p, t, from).value;
    var rest := FindAll(p, t, m.end);
    assert r == [m] + rest;
    if i == 1 {
      FindAllFirst(p, t, m.end);
      assert r[1] == rest[0];
    } else {
      FindAllBetween(p, t, m.end, i - 1);
      assert r[i - 1] == rest[i - 2] && r[i] == rest[i - 1];
    }
  }

  /** `FindAll` misses no match after the last one it reports. */
  lemma {:induction false} FindAllLast(p: Pattern, t: string, from: nat)
    requires Solid(p) && from <= |t|
    requires FindAll(p, t, from) != []
    ensures NoMatchIn(p, t, FindAll(p, t, from)[|FindAll(p, t, from)| - 1].end, |t| + 1)
    decreases |t| - from
  {
    var r := FindAll(p, t, from);
    var m := Search(p, t, from).value;
    var rest := FindAll(p, t, m.end);
    assert r == [m] + rest;
    if rest == [] {
      FindAllFirst(p, t, m.end);
    } else {
      FindAllLast(p, t, m.end);
      assert r[|r| - 1] == rest[|rest| - 1];
    }
  }

  /** The anchored matches `FindAll` reports are all the matches that exist:
      it is empty exactly when the pattern matches nowhere. */
  lemma {:induction false} FindAllEmpty(p: Pattern, t: string)
    requires Solid(p)
    ensures FindAll(p, t, 0) != [] ==> exists k, j :: 0 <= k <= |t| && Derives(p, t, k, j)
    ensures FindAll(p, t, 0) == [] ==> forall k, j :: 0 <= k <= |t| ==> !Derives(p, t, k, j)
  {
    FindAllFirst(p, t, 0);
    var r := FindAll(p, t, 0);
    if r != [] {
      MatchAtSound(p, t, r[0].start);
      assert Derives(p, t, r[0].start, r[0].end);
    } else {
      forall k, j | 0 <= k <= |t| ensures !Derives(p, t, k, j) {
        if Derives(p, t, k, j) {
          MatchAtComplete(p, t, k, j);
        }
      }
    }
  }
}
