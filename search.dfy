/**
 * The computer player's exhaustive game-tree search. `Minimax` is the search
 * as a function of the board; `MinimaxInPlace` is the component's own form,
 * which writes each trial mark into the board it was given, recurses, and
 * empties the square again.
 */
module Search {
  import opened Options
  import opened Board

  /** What one search returns: a score, and the move reaching it (`None` on a finished board). */
  datatype Eval = Eval(score: int, move: Option<nat>)

  /** The mark placed by the side to move. */
  function Mover(isMax: bool, ai: Cell, human: Cell): Cell {
    if isMax then ai else human
  }

  /** `s` beats `t` for the side to move: strictly larger when maximizing, strictly smaller otherwise. */
  predicate Better(isMax: bool, s: int, t: int) {
    if isMax then s > t else s < t
  }

  /**
   * The search's starting value. Its `move` is `None`, which stands for the
   * source's `-Infinity` / `Infinity`: every first score replaces it.
   */
  function NoBest(isMax: bool): Eval {
    Eval(if isMax then -11 else 11, None)
  }

  /** A score replaces the best so far when there is none yet or it is strictly better. */
  predicate Improves(isMax: bool, s: int, best: Eval) {
    best.move.None? || Better(isMax, s, best.score)
  }

  /** The board is won by one of the two players, or full. */
  predicate Finished(b: Board, ai: Cell, human: Cell) {
    Winner(b) == ai || Winner(b) == human || IsFull(b)
  }

  /**
   * `minimax(board, depth, isMaximizing, ai, human)`: a finished board scores
   * `10 - depth` (computer won), `depth - 10` (human won) or `0` (draw);
   * otherwise the empty squares are tried in order 0..8. A move it returns is
   * always an empty square of the board.
   */
  function Minimax(b: Board, depth: nat, isMax: bool, ai: Cell, human: Cell): (r: Eval)
    requires ai != Empty && human != Empty
    ensures r.move.Some? ==> r.move.value < 9 && b[r.move.value] == Empty
    decreases CountEmpty(b), 2
  {
    var winner := Winner(b);
    if winner == ai then Eval(10 - depth, None)
    else if winner == human then Eval(depth - 10, None)
    else if IsFull(b) then Eval(0, None)
    else
      ScanMoveIsFree(b, depth, isMax, ai, human, 0, NoBest(isMax));
      Scan(b, depth, isMax, ai, human, 0, NoBest(isMax))
  }

  /** The score of the search after the side to move marks empty square `i`. */
  function ChildScore(b: Board, depth: nat, isMax: bool, ai: Cell, human: Cell, i: nat): (s: int)
    requires ai != Empty && human != Empty
    requires i < 9 && b[i] == Empty
    decreases CountEmpty(b), 0, 0
  {
    CountAfterMove(b, i, Mover(isMax, ai, human));
    Minimax(b[i := Mover(isMax, ai, human)], depth + 1, !isMax, ai, human).score
  }

  /** The loop over squares i..8, carrying the best score and move found so far. */
  function Scan(b: Board, depth: nat, isMax: bool, ai: Cell, human: Cell, i: nat, best: Eval): (r: Eval)
    requires ai != Empty && human != Empty
    requires i <= 9
    decreases CountEmpty(b), 1, 9 - i, 0
  {
    if i == 9 then best
    else if b[i] != Empty then Scan(b, depth, isMax, ai, human, i + 1, best)
    else
      var s := ChildScore(b, depth, isMax, ai, human, i);
      Scan(b, depth, isMax, ai, human, i + 1, if Improves(isMax, s, best) then Eval(s, Some(i)) else best)
  }

  /** The scan keeps `best` or ends on an empty square it scanned. */
  lemma {:induction false} ScanMoveIsFree(b: Board, depth: nat, isMax: bool, ai: Cell, human: Cell, i: nat, best: Eval)
    requires ai != Empty && human != Empty
    requires i <= 9
    ensures var r := Scan(b, depth, isMax, ai, human, i, best);
      r == best || (r.move.Some? && i <= r.move.value < 9 && b[r.move.value] == Empty)
    decreases CountEmpty(b), 1, 9 - i, 1
  {
    if i < 9 {
      if b[i] != Empty {
        ScanMoveIsFree(b, depth, isMax, ai, human, i + 1, best);
      } else {
        var s := ChildScore(b, depth, isMax, ai, human, i);
        ScanMoveIsFree(b, depth, isMax, ai, human, i + 1, if Improves(isMax, s, best) then Eval(s, Some(i)) else best);
      }
    }
  }

  /**
   * The source's in-place search: the caller's board is the same on return,
   * and the result is the one `Minimax` defines. The two source loops
   * (maximizing with `ai` and `>`, minimizing with `human` and `<`) are one
   * loop here, parameterized by `isMax`.
   */
  method MinimaxInPlace(board: array<Cell>, depth: nat, isMax: bool, ai: Cell, human: Cell)
    returns (score: int, move: Option<nat>)
    requires board.Length == 9
    requires ai != Empty && human != Empty
    modifies board
    ensures board[..] == old(board[..])
    ensures Eval(score, move) == Minimax(old(board[..]), depth, isMax, ai, human)
    decreases CountEmpty(board[..])
  {
    ghost var b: Board := board[..];
    var winner := CalculateWinner(board[..]);
    if winner == ai {
      return 10 - depth, None;
    }
    if winner == human {
      return depth - 10, None;
    }
    if IsFull(board[..]) {
      return 0, None;
    }
    var mark := Mover(isMax, ai, human);
    score, move := if isMax then -11 else 11, None;
    var i := 0;
    while i < board.Length
      invariant 0 <= i <= 9
      invariant board[..] == b
      invariant Scan(b, depth, isMax, ai, human, i, Eval(score, move)) == Minimax(b, depth, isMax, ai, human)
    {
      if board[i] == Empty {
        board[i] := mark;
        assert board[..] == b[i := mark];
        CountAfterMove(b, i, mark);
        var s, _ := MinimaxInPlace(board, depth + 1, !isMax, ai, human);
        board[i] := Empty;
        assert board[..] == b;
        ghost var next := if Improves(isMax, s, Eval(score, move)) then Eval(s, Some(i)) else Eval(score, move);
        assert Scan(b, depth, isMax, ai, human, i, Eval(score, move)) == Scan(b, depth, isMax, ai, human, i + 1, next);
        if move.None? || (isMax && s > score) || (!isMax && s < score) {
          score, move := s, Some(i);
        }
      }
      i := i + 1;
    }
  }

  // ---------------------------------------------------------------------------
  // What the search computes

  /**
   * The scan over squares i..8 either keeps `best` or ends on an empty square
   * whose child score it carries; that score is at least as good as every
   * child scanned and as `best`, and strictly better than every child scanned
   * before its square (ties keep the lower index).
   */
  lemma {:induction false} ScanSpec(b: Board, depth: nat, isMax: bool, ai: Cell, human: Cell, i: nat, best: Eval)
    requires ai != Empty && human != Empty
    requires i <= 9
    ensures var r := Scan(b, depth, isMax, ai, human, i, best);
      && (r == best || (r.move.Some? && i <= r.move.value < 9 && b[r.move.value] == Empty
                        && r.score == ChildScore(b, depth, isMax, ai, human, r.move.value)))
      && (best.move.None? && (exists j :: i <= j < 9 && b[j] == Empty) ==> r != best)
      && (forall j :: i <= j < 9 && b[j] == Empty ==>
            !Better(isMax, ChildScore(b, depth, isMax, ai, human, j), r.score))
      && (best.move.Some? ==> !Better(isMax, best.score, r.score))
      && (r != best && r.move.Some? ==> forall j :: i <= j < r.move.value && b[j] == Empty ==>
            Better(isMax, r.score, ChildScore(b, depth, isMax, ai, human, j)))
      && (r != best && best.move.Some? ==> Better(isMax, r.score, best.score))
    decreases 9 - i
  {
    if i < 9 {
      if b[i] != Empty {
        ScanSpec(b, depth, isMax, ai, human, i + 1, best);
      } else {
        var s := ChildScore(b, depth, isMax, ai, human, i);
        var next := if Improves(isMax, s, best) then Eval(s, Some(i)) else best;
        ScanSpec(b, depth, isMax, ai, human, i + 1, next);
      }
    }
  }

  /**
   * On a board nobody has won that still has an empty square, the search
   * returns an empty square whose child score is the maximum (when
   * maximizing) or the minimum (when minimizing) over all empty squares, and
   * every empty square before it scores strictly worse.
   */
  lemma MinimaxBestMove(b: Board, depth: nat, isMax: bool, ai: Cell, human: Cell)
    requires ai != Empty && human != Empty
    requires !Finished(b, ai, human)
    ensures var r := Minimax(b, depth, isMax, ai, human);
      && r.move.Some? && r.move.value < 9 && b[r.move.value] == Empty
      && r.score == ChildScore(b, depth, isMax, ai, human, r.move.value)
      && (forall j :: 0 <= j < 9 && b[j] == Empty ==>
            if isMax then ChildScore(b, depth, isMax, ai, human, j) <= r.score
            else ChildScore(b, depth, isMax, ai, human, j) >= r.score)
      && (forall j :: 0 <= j < r.move.value && b[j] == Empty ==>
            if isMax then ChildScore(b, depth, isMax, ai, human, j) < r.score
            else ChildScore(b, depth, isMax, ai, human, j) > r.score)
  {
    var j :| 0 <= j < 9 && b[j] == Empty;
    ScanSpec(b, depth, isMax, ai, human, 0, NoBest(isMax));
  }

  /**
   * A finished board gets its fixed score and no move; a move is returned
   * exactly when the board is not finished.
   */
  lemma MinimaxTerminal(b: Board, depth: nat, isMax: bool, ai: Cell, human: Cell)
    requires ai != Empty && human != Empty
    ensures var r := Minimax(b, depth, isMax, ai, human);
      && (Winner(b) == ai ==> r == Eval(10 - depth, None))
      && (Winner(b) != ai && Winner(b) == human ==> r == Eval(depth - 10, None))
      && (Winner(b) != ai && Winner(b) != human && IsFull(b) ==> r == Eval(0, None))
      && (r.move.None? <==> Finished(b, ai, human))
  {
    if !Finished(b, ai, human) {
      MinimaxBestMove(b, depth, isMax, ai, human);
    }
  }

  /**
   * Scores stay within `depth - 10 .. 10 - depth` while the depth plus the
   * empty squares left is at most 10, as it is from a top-level call; an
   * unfinished board plays one more ply and so stays one step inside.
   */
  lemma {:induction false} ScoreRange(b: Board, depth: nat, isMax: bool, ai: Cell, human: Cell)
    requires ai != Empty && human != Empty
    requires depth + CountEmpty(b) <= 10
    ensures depth - 10 <= Minimax(b, depth, isMax, ai, human).score <= 10 - depth
    ensures !Finished(b, ai, human) ==> depth + 1 - 10 <= Minimax(b, depth, isMax, ai, human).score <= 10 - depth - 1
    decreases CountEmpty(b)
  {
    if !Finished(b, ai, human) {
      MinimaxBestMove(b, depth, isMax, ai, human);
      var m := Minimax(b, depth, isMax, ai, human).move.value;
      var mark := Mover(isMax, ai, human);
      CountAfterMove(b, m, mark);
      ScoreRange(b[m := mark], depth + 1, !isMax, ai, human);
    }
  }

  /** An unfinished board scores strictly inside the range: one more ply is always played. */
  lemma OngoingScoreRange(b: Board, depth: nat, isMax: bool, ai: Cell, human: Cell)
    requires ai != Empty && human != Empty
    requires !Finished(b, ai, human)
    requires depth + CountEmpty(b) <= 10
    ensures depth + 1 - 10 <= Minimax(b, depth, isMax, ai, human).score <= 10 - depth - 1
  {
    ScoreRange(b, depth, isMax, ai, human);
  }

  /** The search started at depth 0, as the component starts it, scores within -10 .. 10. */
  lemma TopLevelScore(b: Board, isMax: bool, ai: Cell, human: Cell)
    requires ai != Empty && human != Empty
    ensures -10 <= Minimax(b, 0, isMax, ai, human).score <= 10
  {
    ScoreRange(b, 0, isMax, ai, human);
  }

  /**
   * When the computer is to move, a child scores `9 - depth`, the best a
   * child can score, exactly when that move completes a line for the computer.
   */
  lemma ChildWinScore(b: Board, depth: nat, ai: Cell, human: Cell, j: nat)
    requires ai != Empty && human != Empty && ai != human
    requires j < 9 && b[j] == Empty
    requires depth + CountEmpty(b) <= 9
    ensures ChildScore(b, depth, true, ai, human, j) <= 9 - depth
    ensures ChildScore(b, depth, true, ai, human, j) == 9 - depth <==> Winner(b[j := ai]) == ai
  {
    var c := b[j := ai];
    CountAfterMove(b, j, ai);
    if !Finished(c, ai, human) {
      OngoingScoreRange(c, depth + 1, false, ai, human);
    }
  }

  /**
   * If the computer can complete a line with one mark, the search plays such
   * a square, and the lowest one: no empty square before it wins at once.
   */
  lemma TakesImmediateWin(b: Board, depth: nat, ai: Cell, human: Cell)
    requires ai != Empty && human != Empty && ai != human
    requires !Finished(b, ai, human)
    requires depth + CountEmpty(b) <= 9
    requires exists j :: 0 <= j < 9 && b[j] == Empty && Winner(b[j := ai]) == ai
    ensures var r := Minimax(b, depth, true, ai, human);
      && r.move.Some? && r.move.value < 9 && b[r.move.value] == Empty
      && Winner(b[r.move.value := ai]) == ai
      && forall j :: 0 <= j < r.move.value && b[j] == Empty ==> Winner(b[j := ai]) != ai
  {
    var w :| 0 <= w < 9 && b[w] == Empty && Winner(b[w := ai]) == ai;
    MinimaxBestMove(b, depth, true, ai, human);
    var r := Minimax(b, depth, true, ai, human);
    var m := r.move.value;
    ChildWinScore(b, depth, ai, human, w);
    ChildWinScore(b, depth, ai, human, m);
    forall j | 0 <= j < m && b[j] == Empty
      ensures Winner(b[j := ai]) != ai
    {
      ChildWinScore(b, depth, ai, human, j);
    }
  }
}
