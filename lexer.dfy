/**
 * Three of the four regular expressions of the library screen, and the two
 * ways the screen applies them: `String.prototype.match` with the global flag
 * (every leftmost, non-overlapping match, left to right) and
 * `String.prototype.split` (the text between those matches). The fourth, the
 * header pattern of a bulk block, is read by `Library.HeaderTag`.
 *
 *   MovePattern   /\b(O-O-O|O-O|[KQRBN]?[a-h]?[1-8]?x?[a-h][1-8](?:=[QRBN])?)\b/g
 *   BlankLineGap  /\n\s*\n/
 *   LineBreak     /\n/
 *
 * A pattern is given by the set of infixes it admits at a position
 * (`Admissible`). For all three, the backtracking matcher returns the LONGEST
 * admissible infix at a position. In the move pattern the leading optional
 * parts `[KQRBN]?`, `[a-h]?`, `[1-8]?` and `x?` are pairwise disjoint, so a
 * token can be read in one way only. Inside a token the only characters that
 * are not word characters are `-` (castling) and `=` (promotion), so `\b` can
 * hold inside a token only next to them: a second admissible end at the same
 * start is either `O-O` inside `O-O-O`, which the alternation tries after
 * `O-O-O`, or the end just before a promotion suffix, which the greedy `?`
 * tries after the suffix. Either way the longer end is taken. The greedy `\s*`
 * tries the last line break of the white-space run first.
 */
module Lexer {
  import opened Wrappers
  import opened Text

  datatype Pattern = MovePattern | BlankLineGap | LineBreak

  /** The match occupying `s[start..end]`. */
  datatype Span = Span(start: nat, end: nat)

  predicate IsFile(c: char) { 'a' <= c <= 'h' }

  predicate IsRank(c: char) { '1' <= c <= '8' }

  predicate IsPiece(c: char) { c == 'K' || c == 'Q' || c == 'R' || c == 'B' || c == 'N' }

  predicate IsPromotionPiece(c: char) { c == 'Q' || c == 'R' || c == 'B' || c == 'N' }

  /** `[a-h]?[1-8]?x?`: the disambiguation and capture marker before the destination square. */
  predicate IsDisambiguation(d: string) {
    var afterFile := if |d| > 0 && IsFile(d[0]) then d[1..] else d;
    var afterRank := if |afterFile| > 0 && IsRank(afterFile[0]) then afterFile[1..] else afterFile;
    afterRank == "" || afterRank == "x"
  }

  /** `[KQRBN]?[a-h]?[1-8]?x?[a-h][1-8](?:=[QRBN])?`. */
  predicate IsSanToken(t: string) {
    var body := if |t| > 0 && IsPiece(t[0]) then t[1..] else t;
    var square :=
      if |body| >= 2 && body[|body| - 2] == '=' && IsPromotionPiece(body[|body| - 1])
      then body[..|body| - 2] else body;
    |square| >= 2 && IsFile(square[|square| - 2]) && IsRank(square[|square| - 1])
    && IsDisambiguation(square[..|square| - 2])
  }

  /** The move-token grammar: castling, or a piece move / pawn move in algebraic notation. */
  predicate IsMoveToken(t: string) {
    t == "O-O-O" || t == "O-O" || IsSanToken(t)
  }

  /** `\b` between `s[i - 1]` and `s[i]`. */
  predicate WordBoundary(s: string, i: nat)
    requires i <= |s|
  {
    (i > 0 && IsWordChar(s[i - 1])) != (i < |s| && IsWordChar(s[i]))
  }

  /** `\n\s*\n`. */
  predicate IsBlankLineGap(t: string) {
    |t| >= 2 && t[0] == '\n' && t[|t| - 1] == '\n' && AllSpace(t[1..|t| - 1])
  }

  /** The pattern matches exactly `s[p..e]` when tried at position `p` of `s`. */
  predicate Admissible(pat: Pattern, s: string, p: nat, e: nat)
    requires p < e <= |s|
  {
    match pat
    case MovePattern => WordBoundary(s, p) && IsMoveToken(s[p..e]) && WordBoundary(s, e)
    case BlankLineGap => IsBlankLineGap(s[p..e])
    case LineBreak => s[p..e] == "\n"
  }

  /**
   * `r` is the largest admissible end at `p` that is at most `e`, or None when
   * there is no admissible end up to `e`.
   */
  predicate IsLongestUpTo(pat: Pattern, s: string, p: nat, e: nat, r: Option<nat>)
    requires p <= e <= |s|
  {
    match r
    case Some(m) =>
      p < m <= e && Admissible(pat, s, p, m)
      && forall e' :: m < e' <= e ==> !Admissible(pat, s, p, e')
    case None =>
      forall e' :: p < e' <= e ==> !Admissible(pat, s, p, e')
  }

  function LongestUpTo(pat: Pattern, s: string, p: nat, e: nat): (r: Option<nat>)
    requires p <= e <= |s|
    ensures IsLongestUpTo(pat, s, p, e, r)
    decreases e
  {
    if e <= p then None
    else if Admissible(pat, s, p, e) then Some(e)
    else LongestUpTo(pat, s, p, e - 1)
  }

  /** The end of the match the pattern makes when tried at `p`, if any: the longest admissible one. */
  function MatchAt(pat: Pattern, s: string, p: nat): (r: Option<nat>)
    requires p <= |s|
    ensures r.Some? ==> p < r.value <= |s|
    ensures IsLongestUpTo(pat, s, p, |s|, r)
  {
    LongestUpTo(pat, s, p, |s|)
  }

  /**
   * The outcome of trying a pattern at every position of a text: entry `q` is
   * the end of the match found at `q`, if any.
   */
  predicate IsMatchTable(t: seq<Option<nat>>) {
    forall q :: 0 <= q < |t| && t[q].Some? ==> q < t[q].value <= |t|
  }

  function MatchTable(pat: Pattern, s: string): (t: seq<Option<nat>>)
    ensures |t| == |s| && IsMatchTable(t)
    ensures forall q :: 0 <= q < |s| ==> t[q] == MatchAt(pat, s, q)
  {
    seq(|s|, q requires 0 <= q < |s| => MatchAt(pat, s, q))
  }

  /** No match starts anywhere in `[a, b)`. */
  predicate NoMatchIn(t: seq<Option<nat>>, a: nat, b: nat)
    requires b <= |t|
  {
    forall q :: a <= q < b ==> t[q].None?
  }

  /** Where the text before the `k`-th match begins: `start`, or the end of the previous match. */
  function GapStart(r: seq<Span>, start: nat, k: nat): nat
    requires k <= |r|
  {
    if k == 0 then start else r[k - 1].end
  }

  /** Where the text before the `k`-th match ends: that match's start, or `n` after the last one. */
  function GapEnd(r: seq<Span>, n: nat, k: nat): nat
    requires k <= |r|
  {
    if k == |r| then n else r[k].start
  }

  /**
   * `r` is what a global search from `p` finds: each span is the match made at
   * its start, the spans come in order without overlap, and no match starts
   * in any stretch of text before, between or after them.
   */
  predicate IsScanOf(t: seq<Option<nat>>, p: nat, r: seq<Span>)
    requires p <= |t|
  {
    (forall k :: 0 <= k < |r| ==> r[k].start < r[k].end <= |t| && t[r[k].start] == Some(r[k].end))
    && (forall k :: 0 <= k <= |r| ==>
          GapStart(r, p, k) <= GapEnd(r, |t|, k) <= |t|
          && NoMatchIn(t, GapStart(r, p, k), GapEnd(r, |t|, k)))
  }

  lemma ScanCons(t: seq<Option<nat>>, p: nat, rest: seq<Span>)
    requires p < |t| && t[p].Some? && p < t[p].value <= |t|
    requires IsScanOf(t, t[p].value, rest)
    ensures IsScanOf(t, p, [Span(p, t[p].value)] + rest)
  {
    var e := t[p].value;
    var r := [Span(p, e)] + rest;
    forall k | 0 <= k < |r|
      ensures r[k].start < r[k].end <= |t| && t[r[k].start] == Some(r[k].end)
    {
      if k > 0 { assert r[k] == rest[k - 1]; }
    }
    forall k | 0 <= k <= |r|
      ensures GapStart(r, p, k) <= GapEnd(r, |t|, k) <= |t|
      ensures NoMatchIn(t, GapStart(r, p, k), GapEnd(r, |t|, k))
    {
      if k > 0 {
        assert GapStart(r, p, k) == GapStart(rest, e, k - 1);
        assert GapEnd(r, |t|, k) == GapEnd(rest, |t|, k - 1);
      }
    }
  }

  lemma ScanSkip(t: seq<Option<nat>>, p: nat, rest: seq<Span>)
    requires p < |t| && t[p].None?
    requires IsScanOf(t, p + 1, rest)
    ensures IsScanOf(t, p, rest)
  {
    forall k | 0 <= k <= |rest|
      ensures GapStart(rest, p, k) <= GapEnd(rest, |t|, k) <= |t|
      ensures NoMatchIn(t, GapStart(rest, p, k), GapEnd(rest, |t|, k))
    {
      if k == 0 {
        assert NoMatchIn(t, p + 1, GapEnd(rest, |t|, 0));
      } else {
        assert GapStart(rest, p, k) == GapStart(rest, p + 1, k);
      }
    }
  }

  /** The global search from position `p`, resuming after each match. */
  function Scan(t: seq<Option<nat>>, p: nat): (r: seq<Span>)
    requires IsMatchTable(t) && p <= |t|
    ensures IsScanOf(t, p, r)
    decreases |t| - p
  {
    if p == |t| then []
    else match t[p]
      case Some(e) =>
        var rest := Scan(t, e);
        ScanCons(t, p, rest);
        [Span(p, e)] + rest
      case None =>
        var rest := Scan(t, p + 1);
        ScanSkip(t, p, rest);
        rest
  }

  /** The matches of the pattern in `s`, as a global search from the start finds them. */
  function Matches(pat: Pattern, s: string): (r: seq<Span>)
    ensures IsScanOf(MatchTable(pat, s), 0, r)
  {
    Scan(MatchTable(pat, s), 0)
  }

  /** `s.match(pattern)` with the global flag, an absent result read as no tokens. */
  function MatchAll(pat: Pattern, s: string): (r: seq<string>)
    ensures |r| == |Matches(pat, s)|
    ensures forall k :: 0 <= k < |r| ==>
              r[k] == s[Matches(pat, s)[k].start..Matches(pat, s)[k].end]
  {
    var spans := Matches(pat, s);
    seq(|spans|, k requires 0 <= k < |spans| => s[spans[k].start..spans[k].end])
  }

  /** `s.split(pattern)`: the text before, between and after the matches. */
  function SplitAll(pat: Pattern, s: string): (r: seq<string>)
    ensures |r| == |Matches(pat, s)| + 1
    ensures forall k :: 0 <= k < |r| ==>
              r[k] == s[GapStart(Matches(pat, s), 0, k)..GapEnd(Matches(pat, s), |s|, k)]
  {
    var spans := Matches(pat, s);
    seq(|spans| + 1, k requires 0 <= k <= |spans| =>
      s[GapStart(spans, 0, k)..GapEnd(spans, |s|, k)])
  }

  /** The move tokens of a text, in the order they occur. */
  function MoveTokens(s: string): (r: seq<string>)
    ensures forall k :: 0 <= k < |r| ==> IsMoveToken(r[k])
  {
    var spans := Matches(MovePattern, s);
    var r := MatchAll(MovePattern, s);
    forall k | 0 <= k < |r|
      ensures IsMoveToken(r[k])
    {
      assert MatchAt(MovePattern, s, spans[k].start) == Some(spans[k].end);
    }
    r
  }

  /** `s.split(/\n/)`. */
  function Lines(s: string): seq<string> {
    SplitAll(LineBreak, s)
  }

  /** `s.split(/\n\s*\n/)`. */
  function Blocks(s: string): seq<string> {
    SplitAll(BlankLineGap, s)
  }

  /** No line of `s.split(/\n/)` holds a line break. */
  lemma LinesHaveNoBreak(s: string)
    ensures forall k, j :: 0 <= k < |Lines(s)| && 0 <= j < |Lines(s)[k]| ==> Lines(s)[k][j] != '\n'
  {
    var spans := Matches(LineBreak, s);
    var t := MatchTable(LineBreak, s);
    forall k, j | 0 <= k < |Lines(s)| && 0 <= j < |Lines(s)[k]|
      ensures Lines(s)[k][j] != '\n'
    {
      var a := GapStart(spans, 0, k);
      var q := a + j;
      assert NoMatchIn(t, a, GapEnd(spans, |s|, k));
      assert MatchAt(LineBreak, s, q).None?;
      assert !Admissible(LineBreak, s, q, q + 1);
      assert Lines(s)[k][j] == s[q];
    }
  }

  /** Every match of the line-break pattern is a single `\n`. */
  lemma LineBreakSpans(s: string)
    ensures forall k :: 0 <= k < |Matches(LineBreak, s)| ==>
              Matches(LineBreak, s)[k].start < |s|
              && Matches(LineBreak, s)[k].end == Matches(LineBreak, s)[k].start + 1
              && s[Matches(LineBreak, s)[k].start] == '\n'
  {
    var spans := Matches(LineBreak, s);
    var t := MatchTable(LineBreak, s);
    forall k | 0 <= k < |spans|
      ensures spans[k].start < |s| && spans[k].end == spans[k].start + 1 && s[spans[k].start] == '\n'
    {
      var a, b := spans[k].start, spans[k].end;
      assert t[a] == Some(b);
      assert MatchAt(LineBreak, s, a) == Some(b);
      assert s[a..b] == "\n";
      assert s[a..b][0] == s[a];
    }
  }

  /** Each span is a single `\n` of `s`. */
  predicate SingleBreaks(s: string, spans: seq<Span>) {
    forall k :: 0 <= k < |spans| ==>
      spans[k].start < |s| && spans[k].end == spans[k].start + 1 && s[spans[k].start] == '\n'
  }

  /** `pieces` are the stretches of `s` before, between and after the spans. */
  predicate AreGaps(s: string, spans: seq<Span>, pieces: seq<string>) {
    |pieces| == |spans| + 1
    && forall j {:trigger GapEnd(spans, |s|, j)} :: 0 <= j <= |spans| ==>
         GapStart(spans, 0, j) <= GapEnd(spans, |s|, j) <= |s|
         && pieces[j] == s[GapStart(spans, 0, j)..GapEnd(spans, |s|, j)]
  }

  /** Joining the gaps from the `k`-th on with `\n` gives the text from where the `k`-th gap starts. */
  lemma {:induction false} JoinGapsFrom(s: string, spans: seq<Span>, pieces: seq<string>, k: nat)
    requires SingleBreaks(s, spans) && AreGaps(s, spans, pieces) && k <= |spans|
    ensures GapStart(spans, 0, k) <= |s|
    ensures Join("\n", pieces[k..]) == s[GapStart(spans, 0, k)..]
    decreases |spans| - k
  {
    var a := GapStart(spans, 0, k);
    var b := GapEnd(spans, |s|, k);
    assert a <= b <= |s| && pieces[k] == s[a..b];
    if k == |spans| {
      assert pieces[k..] == [pieces[k]];
    } else {
      JoinGapsFrom(s, spans, pieces, k + 1);
      assert b == spans[k].start < |s| && s[b] == '\n';
      assert GapStart(spans, 0, k + 1) == b + 1;
      calc {
        Join("\n", pieces[k..]);
        { assert pieces[k..][0] == pieces[k] && pieces[k..][1..] == pieces[k + 1..]; }
        pieces[k] + "\n" + Join("\n", pieces[k + 1..]);
        s[a..b] + [s[b]] + s[b + 1..];
        { SplitAround(s, a, b); }
        s[a..];
      }
    }
  }

  lemma SplitAround(s: string, a: nat, b: nat)
    requires a <= b < |s|
    ensures s[a..] == s[a..b] + [s[b]] + s[b + 1..]
  {
    var r := s[a..b] + [s[b]] + s[b + 1..];
    forall m | 0 <= m < |s| - a
      ensures s[a..][m] == r[m]
    {
      if m < b - a {
        assert r[m] == s[a..b][m];
      } else if m > b - a {
        assert r[m] == s[b + 1..][m - (b - a) - 1];
      }
    }
  }

  /** `s.split(/\n/).join("\n")` gives back `s`: splitting at line breaks loses nothing. */
  lemma LinesJoinBack(s: string)
    ensures Join("\n", Lines(s)) == s
  {
    var spans := Matches(LineBreak, s);
    var lines := Lines(s);
    LineBreakSpans(s);
    assert SingleBreaks(s, spans);
    assert AreGaps(s, spans, lines);
    JoinGapsFrom(s, spans, lines, 0);
    assert lines[0..] == lines;
  }

  /** No block of `s.split(/\n\s*\n/)` holds a blank line: the split cuts at every one. */
  lemma BlocksHaveNoBlankLine(s: string)
    ensures forall k, i, j :: 0 <= k < |Blocks(s)| && 0 <= i < j <= |Blocks(s)[k]| ==>
              !IsBlankLineGap(Blocks(s)[k][i..j])
  {
    var spans := Matches(BlankLineGap, s);
    var t := MatchTable(BlankLineGap, s);
    forall k, i, j | 0 <= k < |Blocks(s)| && 0 <= i < j <= |Blocks(s)[k]|
      ensures !IsBlankLineGap(Blocks(s)[k][i..j])
    {
      var a, b := GapStart(spans, 0, k), GapEnd(spans, |s|, k);
      var block := Blocks(s)[k];
      assert block == s[a..b];
      SliceOfSlice(s, a, b, i, j);
      assert block[i..j] == s[a + i..a + j];
      assert NoMatchIn(t, a, b);
      assert MatchAt(BlankLineGap, s, a + i).None?;
      assert !Admissible(BlankLineGap, s, a + i, a + j);
    }
  }

  lemma SliceOfSlice(s: string, a: nat, b: nat, i: nat, j: nat)
    requires a <= b <= |s| && i <= j <= b - a
    ensures s[a..b][i..j] == s[a + i..a + j]
  {
    forall m | 0 <= m < j - i
      ensures s[a..b][i..j][m] == s[a + i..a + j][m]
    {
      assert s[a..b][i..j][m] == s[a..b][i + m] == s[a + i + m];
    }
  }
}
