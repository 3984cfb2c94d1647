/** The fragment of Python regular expressions the invoice parser uses: a pattern
    is a sequence of literal strings and one-or-more character-class runs
    (`\s+`, `\d+`, `[\d.]+`, `[\d,]+`).  A greedy left-to-right matcher is related
    to the declarative meaning of a pattern (some way of cutting the text into
    pieces, one per token), and `re.search` becomes the first position where the
    pattern matches. */
module Regex {
  import opened Wrappers
  import opened Text

  datatype CharClass = Digit | Space | DigitOrDot | DigitOrComma

  predicate InClass(c: char, cls: CharClass) {
    match cls
    case Digit => IsDigit(c)
    case Space => IsSpace(c)
    case DigitOrDot => IsDigit(c) || c == '.'
    case DigitOrComma => IsDigit(c) || c == ','
  }

  /** No character belongs to both classes. */
  predicate Disjoint(a: CharClass, b: CharClass) {
    (a == Space && b != Space) || (a != Space && b == Space)
  }

  lemma DisjointClasses(a: CharClass, b: CharClass, c: char)
    requires Disjoint(a, b) && InClass(c, b)
    ensures !InClass(c, a)
  {
  }

  datatype Token = Lit(lit: string) | Plus(cls: CharClass)

  type Pattern = seq<Token>

  /** A run of class `cls` may be followed by `next` without ambiguity: the first
      character `next` consumes can never extend the run. */
  predicate Blocks(cls: CharClass, next: Token) {
    match next
    case Lit(l) => |l| > 0 && !InClass(l[0], cls)
    case Plus(c) => Disjoint(cls, c)
  }

  /** Every run in the pattern is blocked by the token after it.  For such a
      pattern backtracking can never shorten an inner run, so the greedy matcher
      finds the same match as Python's backtracking engine. */
  predicate Separated(pat: Pattern) {
    forall k :: 0 <= k < |pat| - 1 ==> pat[k].Plus? ==> Blocks(pat[k].cls, pat[k + 1])
  }

  // ---------------------------------------------------------------------------
  // Declarative meaning

  /** Token `tok` matches exactly the text between `i` and `e`. */
  ghost predicate StepOk(s: string, i: nat, tok: Token, e: nat) {
    i <= e <= |s| &&
    match tok
    case Lit(l) => s[i..e] == l
    case Plus(c) => i < e && forall k :: i <= k < e ==> InClass(s[k], c)
  }

  /** `ends[k]` is where token `k` stops, and every token matches its piece:
      the pattern matches `s` from position `i` with these cuts. */
  ghost predicate Decomp(s: string, i: nat, pat: Pattern, ends: seq<nat>)
    decreases |pat|
  {
    |ends| == |pat| &&
    (|pat| == 0 || (StepOk(s, i, pat[0], ends[0]) && Decomp(s, ends[0], pat[1..], ends[1..])))
  }

  /** The pattern matches somewhere starting at position `i`. */
  ghost predicate MatchesAt(s: string, i: nat, pat: Pattern) {
    exists ends :: Decomp(s, i, pat, ends)
  }

  /** The pattern matches somewhere in `s`. */
  ghost predicate Occurs(s: string, pat: Pattern) {
    exists q :: 0 <= q <= |s| && MatchesAt(s, q, pat)
  }

  /** What `re.search` reports: `p` is the leftmost position where the pattern
      matches, and among the matches at `p` the cuts `ends` give the longest
      final run (greedy quantifiers). */
  ghost predicate IsLeftmostMatch(s: string, pat: Pattern, p: nat, ends: seq<nat>) {
    && p <= |s|
    && Decomp(s, p, pat, ends)
    && (forall q :: 0 <= q < p ==> !MatchesAt(s, q, pat))
    && (forall ends' :: Decomp(s, p, pat, ends') ==> LastEnd(ends') <= LastEnd(ends))
  }

  function LastEnd(ends: seq<nat>): nat {
    if |ends| == 0 then 0 else ends[|ends| - 1]
  }

  /** Where token `k` of a match starting at `i` begins. */
  function Start(i: nat, ends: seq<nat>, k: nat): nat {
    if k == 0 || k > |ends| then i else ends[k - 1]
  }

  /** The text token `k` matched (a capture group), or "" for nonsensical cuts. */
  function Group(s: string, i: nat, ends: seq<nat>, k: nat): string {
    if k < |ends| && Start(i, ends, k) <= ends[k] <= |s| then s[Start(i, ends, k)..ends[k]] else ""
  }

  // ---------------------------------------------------------------------------
  // Greedy matcher

  /** The end of the longest run of `cls` characters starting at `i`. */
  function RunEnd(s: string, i: nat, cls: CharClass): (j: nat)
    requires i <= |s|
    ensures i <= j <= |s|
    ensures forall k :: i <= k < j ==> InClass(s[k], cls)
    ensures j == |s| || !InClass(s[j], cls)
    decreases |s| - i
  {
    if i == |s| || !InClass(s[i], cls) then i else RunEnd(s, i + 1, cls)
  }

  /** Greedy end of one token at `i`: a literal must be there; a run takes every
      character of its class and must take at least one. */
  function Step(s: string, i: nat, tok: Token): Option<nat>
    requires i <= |s|
  {
    match tok
    case Lit(l) => if OccursAt(s, i, l) then Some(i + |l|) else None
    case Plus(c) =>
      var j := RunEnd(s, i, c);
      if j == i then None else Some(j)
  }

  /** Matches the tokens one after another, each run as long as possible. */
  function Greedy(s: string, i: nat, pat: Pattern): (r: Option<seq<nat>>)
    requires i <= |s|
    ensures r.Some? ==> Decomp(s, i, pat, r.value)
    ensures r.Some? ==> LastEnd(r.value) <= |s|
    ensures r.Some? && |pat| > 0 && pat[|pat| - 1].Plus? ==>
              LastEnd(r.value) == |s| || !InClass(s[LastEnd(r.value)], pat[|pat| - 1].cls)
    decreases |pat|
  {
    if |pat| == 0 then Some([])
    else
      match Step(s, i, pat[0])
      case None => None
      case Some(e) =>
        match Greedy(s, e, pat[1..])
        case None => None
        case Some(rest) => Some([e] + rest)
  }

  lemma SeparatedTail(pat: Pattern)
    requires |pat| > 0 && Separated(pat)
    ensures Separated(pat[1..])
  {
    forall k | 0 <= k < |pat[1..]| - 1 && pat[1..][k].Plus?
      ensures Blocks(pat[1..][k].cls, pat[1..][k + 1])
    {
      assert pat[1..][k] == pat[k + 1] && pat[1..][k + 1] == pat[k + 2];
    }
  }

  /** For a separated pattern, whenever the pattern matches at `i` the greedy
      matcher succeeds there, makes the same inner cuts, and ends the final run
      no earlier. */
  lemma {:induction false} GreedyComplete(s: string, i: nat, pat: Pattern, ends: seq<nat>)
    requires i <= |s| && Separated(pat) && Decomp(s, i, pat, ends)
    ensures Greedy(s, i, pat).Some?
    ensures forall k :: 0 <= k < |pat| - 1 ==> Greedy(s, i, pat).value[k] == ends[k]
    ensures LastEnd(ends) <= LastEnd(Greedy(s, i, pat).value)
    decreases |pat|
  {
    if |pat| > 0 {
      var e := ends[0];
      assert StepOk(s, i, pat[0], e);
      match pat[0] {
        case Lit(l) =>
          assert Step(s, i, pat[0]) == Some(e);
        case Plus(c) =>
          var j := RunEnd(s, i, c);
          assert e <= j;
          if |pat| > 1 {
            var t := pat[1];
            assert Blocks(c, t);
            assert StepOk(s, e, t, ends[1]);
            assert e < |s| && !InClass(s[e], c) by {
              match t
              case Lit(l) =>
                assert s[e..ends[1]] == l;
                assert s[e] == l[0];
              case Plus(c2) =>
                assert InClass(s[e], c2);
                DisjointClasses(c, c2, s[e]);
            }
            assert j == e;
          }
          assert Step(s, i, pat[0]) == Some(j);
      }
      var g := Step(s, i, pat[0]).value;
      if |pat| == 1 {
        assert Greedy(s, g, pat[1..]) == Some([]);
      } else {
        assert g == e;
        SeparatedTail(pat);
        GreedyComplete(s, e, pat[1..], ends[1..]);
        var rest := Greedy(s, e, pat[1..]).value;
        assert Greedy(s, i, pat).value == [e] + rest;
        assert LastEnd(ends) == LastEnd(ends[1..]);
      }
    }
  }

  /** For a separated pattern the greedy matcher succeeds exactly where the
      pattern matches. */
  lemma GreedyIffMatches(s: string, i: nat, pat: Pattern)
    requires i <= |s| && Separated(pat)
    ensures Greedy(s, i, pat).Some? <==> MatchesAt(s, i, pat)
  {
    if Greedy(s, i, pat).Some? {
      assert Decomp(s, i, pat, Greedy(s, i, pat).value);
    }
    if MatchesAt(s, i, pat) {
      var ends :| Decomp(s, i, pat, ends);
      GreedyComplete(s, i, pat, ends);
    }
  }

  // ---------------------------------------------------------------------------
  // Leftmost search

  datatype Found = Found(pos: nat, ends: seq<nat>)

  /** The greedy matcher fails at every position from `lo` up to, not
      including, `hi`. */
  ghost predicate FailsBetween(s: string, pat: Pattern, lo: nat, hi: nat) {
    forall q :: lo <= q < hi && q <= |s| ==> Greedy(s, q, pat).None?
  }

  /** A failure at `lo` extends the failing stretch after it. */
  lemma FailsExtend(s: string, pat: Pattern, lo: nat, hi: nat)
    requires lo <= |s| && Greedy(s, lo, pat).None? && FailsBetween(s, pat, lo + 1, hi)
    ensures FailsBetween(s, pat, lo, hi)
  {
  }

  /** Tries positions `from`, `from + 1`, ..., `|s|` in turn and reports the first
      where the greedy matcher succeeds. */
  function SearchFrom(s: string, pat: Pattern, from: nat): (r: Option<Found>)
    requires from <= |s| + 1
    ensures r.Some? ==> from <= r.value.pos <= |s| && Greedy(s, r.value.pos, pat) == Some(r.value.ends)
    decreases |s| + 1 - from
  {
    if from > |s| then None
    else
      var g := Greedy(s, from, pat);
      if g.Some? then Some(Found(from, g.value))
      else SearchFrom(s, pat, from + 1)
  }

  /** Python's `re.search(pattern, s)`. */
  function Search(s: string, pat: Pattern): Option<Found> {
    SearchFrom(s, pat, 0)
  }

  /** The scan passes over only positions where the greedy matcher fails. */
  lemma {:induction false} SearchFromSkips(s: string, pat: Pattern, from: nat)
    requires from <= |s| + 1
    ensures SearchFrom(s, pat, from).Some? ==> FailsBetween(s, pat, from, SearchFrom(s, pat, from).value.pos)
    ensures SearchFrom(s, pat, from).None? ==> FailsBetween(s, pat, from, |s| + 1)
    decreases |s| + 1 - from
  {
    if from <= |s| && Greedy(s, from, pat).None? {
      SearchFromSkips(s, pat, from + 1);
      var hi := if SearchFrom(s, pat, from).Some? then SearchFrom(s, pat, from).value.pos else |s| + 1;
      assert SearchFrom(s, pat, from) == SearchFrom(s, pat, from + 1);
      assert FailsBetween(s, pat, from + 1, hi);
      FailsExtend(s, pat, from, hi);
    }
  }

  /** Conversely the scan stops at the first position where the greedy
      matcher succeeds. */
  lemma {:induction false} SearchFromStops(s: string, pat: Pattern, from: nat, p: nat, ends: seq<nat>)
    requires from <= p <= |s| && Greedy(s, p, pat) == Some(ends) && FailsBetween(s, pat, from, p)
    ensures SearchFrom(s, pat, from) == Some(Found(p, ends))
    decreases p - from
  {
    if from < p {
      assert Greedy(s, from, pat).None?;
      SearchFromStops(s, pat, from + 1, p, ends);
    }
  }

  /** `re.search` reports a position where the greedy matcher succeeds and
      before which it fails everywhere, or nothing when it fails everywhere. */
  lemma SearchSkips(s: string, pat: Pattern)
    ensures Search(s, pat).Some? ==> FailsBetween(s, pat, 0, Search(s, pat).value.pos)
    ensures Search(s, pat).None? ==> FailsBetween(s, pat, 0, |s| + 1)
  {
    SearchFromSkips(s, pat, 0);
  }

  /** `re.search` finds nothing exactly when the pattern matches nowhere. */
  lemma SearchNone(s: string, pat: Pattern)
    requires Separated(pat)
    ensures Search(s, pat).None? <==> forall q :: 0 <= q <= |s| ==> !MatchesAt(s, q, pat)
  {
    SearchSkips(s, pat);
    if Search(s, pat).None? {
      forall q | 0 <= q <= |s| ensures !MatchesAt(s, q, pat) {
        GreedyIffMatches(s, q, pat);
      }
    } else {
      var p := Search(s, pat).value.pos;
      GreedyIffMatches(s, p, pat);
    }
  }

  /** What `re.search` returns is the leftmost, longest match. */
  lemma SearchFindsLeftmost(s: string, pat: Pattern, p: nat, ends: seq<nat>)
    requires Separated(pat) && Search(s, pat) == Some(Found(p, ends))
    ensures IsLeftmostMatch(s, pat, p, ends)
  {
    SearchSkips(s, pat);
    forall q | 0 <= q < p ensures !MatchesAt(s, q, pat) {
      GreedyIffMatches(s, q, pat);
    }
    forall ends' | Decomp(s, p, pat, ends') ensures LastEnd(ends') <= LastEnd(ends) {
      GreedyComplete(s, p, pat, ends');
    }
  }

  /** The leftmost, longest match is what `re.search` returns. */
  lemma LeftmostIsSearched(s: string, pat: Pattern, p: nat, ends: seq<nat>)
    requires Separated(pat) && IsLeftmostMatch(s, pat, p, ends)
    ensures Search(s, pat) == Some(Found(p, ends))
  {
    GreedyComplete(s, p, pat, ends);
    SearchSkips(s, pat);
    var r := Search(s, pat);
    assert r.Some?;
    var p' := r.value.pos;
    if p' < p {
      GreedyIffMatches(s, p', pat);
      assert false;
    }
    assert p' == p;
    var g := r.value.ends;
    assert Decomp(s, p, pat, g);
    assert LastEnd(g) <= LastEnd(ends);
    assert g == Greedy(s, p, pat).value;
    assert |g| == |ends|;
    forall k | 0 <= k < |g| ensures g[k] == ends[k] {
      if k == |g| - 1 {
        assert LastEnd(g) == g[k] && LastEnd(ends) == ends[k];
      }
    }
    assert g == ends;
  }

  /** The search stops at the first position where the greedy matcher
      succeeds. */
  lemma FirstGreedyIsSearched(s: string, pat: Pattern, p: nat, ends: seq<nat>)
    requires p <= |s| && Greedy(s, p, pat) == Some(ends)
    requires forall q :: 0 <= q < p ==> Greedy(s, q, pat).None?
    ensures Search(s, pat) == Some(Found(p, ends))
  {
    SearchFromStops(s, pat, 0, p, ends);
  }

  /** A pattern that starts with a literal cannot match before the first
      occurrence of the literal's first character. */
  lemma NoMatchBeforeLabel(s: string, pat: Pattern, p: nat)
    requires |pat| > 0 && pat[0].Lit? && |pat[0].lit| > 0 && p <= |s|
    requires forall q :: 0 <= q < p ==> s[q] != pat[0].lit[0]
    ensures forall q :: 0 <= q < p ==> Greedy(s, q, pat).None?
  {
    forall q | 0 <= q < p ensures Greedy(s, q, pat).None? {
      var lit := pat[0].lit;
      assert q + |lit| <= |s| ==> s[q..q + |lit|][0] == s[q];
    }
  }

  lemma {:induction false} DecompGroup(s: string, i: nat, pat: Pattern, ends: seq<nat>, k: nat)
    requires Decomp(s, i, pat, ends) && k < |pat|
    ensures StepOk(s, Start(i, ends, k), pat[k], ends[k])
    ensures Group(s, i, ends, k) == s[Start(i, ends, k)..ends[k]]
    decreases k
  {
    if k > 0 {
      DecompGroup(s, ends[0], pat[1..], ends[1..], k - 1);
      assert Start(ends[0], ends[1..], k - 1) == Start(i, ends, k);
    }
  }

  /** A run token captures a non-empty string of its class. */
  lemma RunGroup(s: string, i: nat, pat: Pattern, ends: seq<nat>, k: nat)
    requires Decomp(s, i, pat, ends) && k < |pat| && pat[k].Plus?
    ensures |Group(s, i, ends, k)| > 0
    ensures forall j :: 0 <= j < |Group(s, i, ends, k)| ==> InClass(Group(s, i, ends, k)[j], pat[k].cls)
  {
    DecompGroup(s, i, pat, ends, k);
  }

  /** A match needs the pattern's leading literal to occur in the text. */
  lemma MatchNeedsLiteral(s: string, lit: string, rest: Pattern, q: nat)
    requires q <= |s| && MatchesAt(s, q, [Lit(lit)] + rest)
    ensures Contains(s, lit)
  {
    var ends :| Decomp(s, q, [Lit(lit)] + rest, ends);
    assert ([Lit(lit)] + rest)[0] == Lit(lit);
    assert StepOk(s, q, Lit(lit), ends[0]);
    assert OccursAt(s, q, lit);
  }
}
