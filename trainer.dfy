/**
 * The drill session of `TrainerBoard`: the board plays the opponent's plies
 * of a line, waits for the learner's ply, compares it with the line, and
 * either restarts (an error) or plays on to the learner's next ply (and
 * reports completion once the line is exhausted).
 *
 * The chess engine is an oracle: what it answers to a dropped piece is an
 * input, None for an illegal move and Some(san) for a legal one, and the
 * opponent's plies are assumed legal and recorded as the line's own tokens.
 */
module Trainer {
  import opened Wrappers
  import opened Text

  datatype Side = White | Black

  /** `sideAt(i)`: even plies are White's, odd plies Black's. */
  function SideAt(i: nat): Side {
    if i % 2 == 0 then White else Black
  }

  /** The sides take turns: the next ply is the other side's, the one after that the same side's. */
  lemma SidesAlternate(i: nat)
    ensures SideAt(i + 1) != SideAt(i)
    ensures SideAt(i + 2) == SideAt(i)
  {
  }

  /** The learner's side: White exactly for the colour "white", Black for anything else. */
  function PlayerSide(color: string): Side {
    if color == "white" then White else Black
  }

  // ---------------------------------------------------------------------------
  // Comparing moves
  // ---------------------------------------------------------------------------

  predicate IsMark(c: char) {
    c == '+' || c == '#'
  }

  /** `replace(/[+#]/g, "")`: every check and mate mark removed. */
  function StripMarks(s: string): (r: string)
    ensures forall i :: 0 <= i < |r| ==> !IsMark(r[i])
    ensures |r| <= |s|
  {
    if |s| == 0 then ""
    else if IsMark(s[0]) then StripMarks(s[1..])
    else [s[0]] + StripMarks(s[1..])
  }

  /** `normalizeSan(san)`: marks removed, blanks trimmed, letters lower-cased. */
  function NormalizeSan(san: string): string {
    ToLower(Trim(StripMarks(san)))
  }

  predicate IsNormal(s: string) {
    IsTrimmed(s) && IsLower(s) && forall i :: 0 <= i < |s| ==> !IsMark(s[i])
  }

  lemma {:induction false} StripMarksOfUnmarked(s: string)
    requires forall i :: 0 <= i < |s| ==> !IsMark(s[i])
    ensures StripMarks(s) == s
    decreases |s|
  {
    if |s| > 0 {
      assert !IsMark(s[0]);
      StripMarksOfUnmarked(s[1..]);
    }
  }

  /** A normalised move has no marks, no surrounding blanks and no capitals. */
  lemma NormalizeSanIsNormal(san: string)
    ensures IsNormal(NormalizeSan(san))
  {
    var t := Trim(StripMarks(san));
    var r := ToLower(t);
    TrimIsTrimmed(StripMarks(san));
    TrimIsInfix(StripMarks(san));
    var a := SkipSpace(StripMarks(san), 0);
    forall i | 0 <= i < |r|
      ensures !IsMark(r[i])
    {
      assert t[i] == StripMarks(san)[a + i];
    }
  }

  /** Normalising twice is normalising once. */
  lemma NormalizeSanIdempotent(san: string)
    ensures NormalizeSan(NormalizeSan(san)) == NormalizeSan(san)
  {
    var n := NormalizeSan(san);
    NormalizeSanIsNormal(san);
    StripMarksOfUnmarked(n);
    TrimOfTrimmed(n);
    ToLowerOfLower(n);
  }

  // ---------------------------------------------------------------------------
  // Playing the opponent's plies
  // ---------------------------------------------------------------------------

  /**
   * Where the skip loop starting at `start` stops on a line of `n` plies: the
   * first index from `start` on that is `side`'s ply, or `n` when there is none.
   */
  function NextPlayerPly(n: nat, side: Side, start: nat): (i: nat)
    requires start <= n
    ensures start <= i <= n
    ensures i < n ==> SideAt(i) == side
    ensures forall j :: start <= j < i ==> SideAt(j) != side
    decreases n - start
  {
    if start == n || SideAt(start) == side then start else NextPlayerPly(n, side, start + 1)
  }

  /** From the start of the line, White plays ply 0 and Black waits at most one ply. */
  lemma SetupIndex(n: nat, side: Side)
    ensures NextPlayerPly(n, side, 0) == if side == White then 0 else if n == 0 then 0 else 1
  {
    if side == Black && n > 0 {
      assert NextPlayerPly(n, side, 1) == 1;
    }
  }

  /** After the learner's ply `m`, the next one is two plies later, or the end of the line. */
  lemma {:induction false} NextAfterPly(n: nat, side: Side, m: nat)
    requires m < n && SideAt(m) == side
    ensures NextPlayerPly(n, side, m + 1) == if m + 2 <= n then m + 2 else n
  {
    if m + 1 < n {
      assert SideAt(m + 1) != side;
      assert SideAt(m + 2) == side;
      if m + 2 < n {
        assert NextPlayerPly(n, side, m + 2) == m + 2;
      } else {
        assert NextPlayerPly(n, side, m + 2) == n;
      }
    }
  }

  /**
   * The skip loop: plays the opponent's plies of `moves` from `start` onto the
   * engine's move list `played` until the learner is to move or the line ends.
   */
  method AdvancePastOpponent(moves: seq<string>, side: Side, start: nat, played: seq<string>)
    returns (i: nat, after: seq<string>)
    requires start <= |moves|
    ensures i == NextPlayerPly(|moves|, side, start)
    ensures after == played + moves[start..i]
  {
    i := start;
    after := played;
    while i < |moves| && SideAt(i) != side
      invariant start <= i <= |moves|
      invariant NextPlayerPly(|moves|, side, i) == NextPlayerPly(|moves|, side, start)
      invariant after == played + moves[start..i]
      decreases |moves| - i
    {
      after := after + [moves[i]];
      i := i + 1;
    }
  }

  /** The moves of `h` are, once normalised, the first moves of the line. */
  predicate Agrees(h: seq<string>, moves: seq<string>) {
    |h| <= |moves| && forall k :: 0 <= k < |h| ==> NormalizeSan(h[k]) == NormalizeSan(moves[k])
  }

  /** What set-up and restart show, the line's first plies, agrees with the line. */
  lemma PrefixAgrees(moves: seq<string>, i: nat)
    requires i <= |moves|
    ensures Agrees(moves[..i], moves)
  {
  }

  /**
   * What a matching drop shows, the old history, the learner's ply and the
   * opponent's plies after it, agrees with the line when the old history did.
   */
  lemma AgreementExtends(h: seq<string>, san: string, moves: seq<string>, m: nat, i: nat)
    requires Agrees(h, moves) && |h| == m < i <= |moves|
    requires NormalizeSan(san) == NormalizeSan(moves[m])
    ensures Agrees(h + [san] + moves[m + 1..i], moves)
  {
    var e := h + [san] + moves[m + 1..i];
    forall k | 0 <= k < |e|
      ensures NormalizeSan(e[k]) == NormalizeSan(moves[k])
    {
      if k > m {
        assert e[k] == moves[k];
      } else if k < m {
        assert e[k] == h[k];
      }
    }
  }

  // ---------------------------------------------------------------------------
  // The session
  // ---------------------------------------------------------------------------

  /** What a drop reports to the library: nothing, `onError`, `onComplete`, or a thrown error. */
  datatype Signal = Quiet | ErrorSignal | CompleteSignal | Fault

  class Session {
    /** The line being drilled and the learner's colour. */
    const moves: seq<string>
    const playerColor: string
    /** The ply the learner is to play next. */
    var moveIndex: nat
    /** The engine's move list. */
    var board: seq<string>
    /** The move list shown beside the board. */
    var history: seq<string>

    /**
     * The index is within the line and is the learner's ply while the line
     * lasts; the shown history is the engine's list up to that index; the
     * engine runs ahead of the shown history only once the line is over.
     * That the shown history agrees with the line is stated apart, as
     * `Agrees(history, moves)`, by the constructor, `Restart` and `Drop`.
     */
    predicate Valid()
      reads this
    {
      && moveIndex <= |moves|
      && (moveIndex < |moves| ==> SideAt(moveIndex) == PlayerSide(playerColor))
      && |history| == moveIndex
      && |history| <= |board| && board[..|history|] == history
      && (|board| > |history| ==> moveIndex == |moves|)
    }

    function StartIndex(): nat
      reads this
    {
      NextPlayerPly(|moves|, PlayerSide(playerColor), 0)
    }

    /** The set-up effect: a fresh engine that has played the opponent's opening plies. */
    constructor (moves: seq<string>, playerColor: string)
      ensures this.moves == moves && this.playerColor == playerColor
      ensures moveIndex == NextPlayerPly(|moves|, PlayerSide(playerColor), 0)
      ensures board == moves[..moveIndex] && history == board
      ensures Valid() && Agrees(history, moves)
    {
      this.moves := moves;
      this.playerColor := playerColor;
      var i, played := AdvancePastOpponent(moves, PlayerSide(playerColor), 0, []);
      moveIndex := i;
      board := played;
      history := played;
      new;
      assert moves[0..i] == moves[..i];
      PrefixAgrees(moves, i);
    }

    /** `restart`: the same position as at set-up, on a fresh engine. */
    method Restart()
      modifies this
      ensures moveIndex == StartIndex()
      ensures board == moves[..moveIndex] && history == board
      ensures Valid() && Agrees(history, moves)
    {
      var i, played := AdvancePastOpponent(moves, PlayerSide(playerColor), 0, []);
      assert moves[0..i] == moves[..i];
      PrefixAgrees(moves, i);
      moveIndex := i;
      board := played;
      history := played;
    }

    /**
     * `onDrop`, with `answer` the engine's result for the dropped piece.
     * An illegal drop changes nothing and reports nothing. A legal drop once
     * the line is over throws (there is no expected move to compare with),
     * after the engine has played it. A legal drop that does not match the
     * line reports an error and restarts. A matching drop is kept, the
     * opponent's plies after it are played, and completion is reported when
     * the line is exhausted.
     */
    method Drop(answer: Option<string>) returns (accepted: bool, signal: Signal)
      requires Valid()
      modifies this
      ensures Valid()
      ensures Agrees(old(history), moves) ==> Agrees(history, moves)
      ensures answer.None? ==>
                !accepted && signal == Quiet
                && moveIndex == old(moveIndex) && board == old(board) && history == old(history)
      ensures answer.Some? && old(moveIndex) >= |moves| ==>
                !accepted && signal == Fault
                && moveIndex == old(moveIndex) && board == old(board) + [answer.value]
                && history == old(history)
      ensures answer.Some? && old(moveIndex) < |moves|
              && NormalizeSan(answer.value) != NormalizeSan(moves[old(moveIndex)]) ==>
                !accepted && signal == ErrorSignal
                && moveIndex == StartIndex() && board == moves[..moveIndex] && history == board
      ensures answer.Some? && old(moveIndex) < |moves|
              && NormalizeSan(answer.value) == NormalizeSan(moves[old(moveIndex)]) ==>
                accepted
                && moveIndex == NextPlayerPly(|moves|, PlayerSide(playerColor), old(moveIndex) + 1)
                && old(moveIndex) < moveIndex
                && history == old(history) + [answer.value] + moves[old(moveIndex) + 1..moveIndex]
                && board == history
                && (signal == CompleteSignal <==> moveIndex >= |moves|)
                && (signal != CompleteSignal ==> signal == Quiet)
    {
      match answer {
        case None =>
          return false, Quiet;
        case Some(san) =>
          board := board + [san];
          if moveIndex >= |moves| {
            return false, Fault;
          }
          if NormalizeSan(san) != NormalizeSan(moves[moveIndex]) {
            Restart();
            return false, ErrorSignal;
          }
          assert board == history + [san];
          var i, played := AdvancePastOpponent(moves, PlayerSide(playerColor), moveIndex + 1, board);
          if Agrees(history, moves) {
            AgreementExtends(history, san, moves, moveIndex, i);
          }
          moveIndex := i;
          board := played;
          history := played;
          accepted := true;
          signal := if i >= |moves| then CompleteSignal else Quiet;
      }
    }
  }

  // ---------------------------------------------------------------------------
  // The move list beside the board
  // ---------------------------------------------------------------------------

  /** `moves[i] || ""`: the ply, or nothing past the end. */
  function Ply(moves: seq<string>, i: nat): string {
    if i < |moves| then moves[i] else ""
  }

  /** The `k`-th numbered pair: `k+1. white black`, trimmed. */
  function Segment(moves: seq<string>, k: nat): (r: string)
    ensures |r| > 0 && IsDigit(r[0])
  {
    var raw := NatToString(k + 1) + ". " + Ply(moves, 2 * k) + " " + Ply(moves, 2 * k + 1);
    NatToStringValue(k + 1);
    assert raw[0] == NatToString(k + 1)[0];
    TrimKeepsFirst(raw);
    Trim(raw)
  }

  /** The first `n` numbered pairs, in order. */
  function SegmentsUpTo(moves: seq<string>, n: nat): (r: seq<string>)
    ensures |r| == n
    decreases n
  {
    if n == 0 then [] else SegmentsUpTo(moves, n - 1) + [Segment(moves, n - 1)]
  }

  lemma {:induction false} SegmentsUpToAt(moves: seq<string>, n: nat, k: nat)
    requires k < n
    ensures SegmentsUpTo(moves, n)[k] == Segment(moves, k)
    decreases n
  {
    if k < n - 1 {
      SegmentsUpToAt(moves, n - 1, k);
    }
  }

  /** One numbered pair for every two plies, a last one for an odd ply out. */
  function Segments(moves: seq<string>): (r: seq<string>)
    ensures |r| == (|moves| + 1) / 2
  {
    SegmentsUpTo(moves, (|moves| + 1) / 2)
  }

  /** There are ceil(n/2) segments, and segment `k` is the `k`-th numbered pair. */
  lemma SegmentsAt(moves: seq<string>)
    ensures |Segments(moves)| == (|moves| + 1) / 2
    ensures forall k :: 0 <= k < |Segments(moves)| ==> Segments(moves)[k] == Segment(moves, k)
  {
    forall k | 0 <= k < |Segments(moves)|
      ensures Segments(moves)[k] == Segment(moves, k)
    {
      SegmentsUpToAt(moves, (|moves| + 1) / 2, k);
    }
  }

  /** One round of the formatting loop: the `k`-th numbered pair, which starts at ply `i = 2k`. */
  method FormatPair(moves: seq<string>, i: nat, ghost k: nat) returns (pair: string)
    requires i == 2 * k
    ensures pair == Segment(moves, k)
  {
    var num := i / 2 + 1;
    assert num == k + 1;
    var white := if i < |moves| then moves[i] else "";
    var black := if i + 1 < |moves| then moves[i + 1] else "";
    assert white == Ply(moves, 2 * k) && black == Ply(moves, 2 * k + 1);
    pair := Trim(NatToString(num) + ". " + white + " " + black);
  }

  /** `formatMoveHistory(moves)`: the numbered pairs joined by single blanks. */
  method FormatMoveHistory(moves: seq<string>) returns (text: string)
    ensures text == Join(" ", Segments(moves))
  {
    var pairs: seq<string> := [];
    var i := 0;
    while i < |moves|
      invariant i == 2 * |pairs| && i <= |moves| + 1
      invariant pairs == SegmentsUpTo(moves, |pairs|)
      decreases |moves| - i
    {
      var pair := FormatPair(moves, i, |pairs|);
      pairs := pairs + [pair];
      i := i + 2;
    }
    assert |pairs| == (|moves| + 1) / 2;
    text := Join(" ", pairs);
  }

  /** An empty move list is shown as nothing. */
  lemma EmptyHistory()
    ensures Join(" ", Segments([])) == ""
  {
  }

  predicate IsToken(s: string) {
    |s| > 0 && IsTrimmed(s)
  }

  /**
   * A pair of proper plies is shown as `k+1. white black`; a lone ply at the
   * end of the list as `k+1. white`.
   */
  lemma SegmentShape(moves: seq<string>, k: nat)
    requires 2 * k < |moves| && IsToken(moves[2 * k])
    requires 2 * k + 1 < |moves| ==> IsToken(moves[2 * k + 1])
    ensures 2 * k + 1 < |moves| ==>
              Segment(moves, k) == NatToString(k + 1) + ". " + moves[2 * k] + " " + moves[2 * k + 1]
    ensures 2 * k + 1 >= |moves| ==>
              Segment(moves, k) == NatToString(k + 1) + ". " + moves[2 * k]
  {
    var num := NatToString(k + 1);
    var head := num + ". " + moves[2 * k];
    NatToStringValue(k + 1);
    assert head[0] == num[0];
    assert head[|head| - 1] == moves[2 * k][|moves[2 * k]| - 1];
    assert IsTrimmed(head);
    if 2 * k + 1 < |moves| {
      var full := head + " " + moves[2 * k + 1];
      assert full[0] == num[0];
      assert full[|full| - 1] == moves[2 * k + 1][|moves[2 * k + 1]| - 1];
      TrimOfTrimmed(full);
    } else {
      assert Ply(moves, 2 * k + 1) == "";
      assert head + " " + "" == head + " ";
      TrimTrailingBlank(head);
    }
  }
}
