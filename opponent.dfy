/**
 * The computer player's choice of square (it always plays O against X):
 * an opening rule for its first reply, the search for every other move.
 */
module Opponent {
  import opened Options
  import opened Board
  import opened Search

  /** The computer's first reply: exactly one X and no O on the board. */
  predicate IsOpening(b: Board) {
    CountOf(b, X) == 1 && CountOf(b, O) == 0
  }

  /** `[0, 2, 6, 8].filter((i) => !board[i])`: the empty corners, in that order. */
  function FreeCorners(b: Board): (r: seq<nat>)
    ensures forall k :: 0 <= k < |r| ==> r[k] in {0, 2, 6, 8} && b[r[k]] == Empty
    ensures forall c :: c in {0, 2, 6, 8} && b[c] == Empty ==> c in r
  {
    (if b[0] == Empty then [0] else []) + (if b[2] == Empty then [2] else [])
    + (if b[6] == Empty then [6] else []) + (if b[8] == Empty then [8] else [])
  }

  /**
   * The square the computer picks, or `None`. `pick` stands for the random
   * draw among the free corners: corner number `pick % |corners|` is taken.
   */
  function ChooseAiMove(b: Board, pick: nat): (r: Option<nat>)
    ensures r.Some? ==> r.value < 9 && b[r.value] == Empty
  {
    if IsOpening(b) then
      if b[4] == Empty then Some(4)
      else
        var corners := FreeCorners(b);
        if |corners| > 0 then Some(corners[pick % |corners|]) else None
    else
      var best := Minimax(b, 0, true, O, X).move;
      if best.Some? && b[best.value] == Empty then best else None
  }

  /**
   * The component's computation: the search runs on a copy of the board
   * (`board.slice()`), so the board itself is never touched.
   */
  method ChooseAiMoveOnCopy(board: Board, pick: nat) returns (aiMove: Option<nat>)
    ensures aiMove.Some? ==> aiMove.value < 9 && board[aiMove.value] == Empty
    ensures aiMove == ChooseAiMove(board, pick)
  {
    var xCount := CountOf(board, X);
    var oCount := CountOf(board, O);
    aiMove := None;
    if xCount == 1 && oCount == 0 {
      if board[4] == Empty {
        aiMove := Some(4);
      } else {
        var corners := FreeCorners(board);
        if |corners| > 0 {
          aiMove := Some(corners[pick % |corners|]);
        }
      }
    } else {
      var copy := new Cell[9](i requires 0 <= i < 9 => board[i]);
      assert copy[..] == board;
      var _, bestMove := MinimaxInPlace(copy, 0, true, O, X);
      if bestMove.Some? && board[bestMove.value] == Empty {
        aiMove := bestMove;
      }
    }
  }

  /**
   * The opening rule: the centre when it is free; otherwise (X took the
   * centre) one of the four corners, all of which are then free.
   */
  lemma OpeningReply(b: Board, pick: nat)
    requires IsOpening(b)
    ensures var r := ChooseAiMove(b, pick);
      && r.Some?
      && (b[4] == Empty ==> r == Some(4))
      && (b[4] != Empty ==> r.value in {0, 2, 6, 8})
  {
    if b[4] != Empty {
      CountOfZero(b, O);
      OnlyOccurrence(b, 4, X);
      assert FreeCorners(b) == [0, 2, 6, 8];
    }
  }

  /** While nobody has won and a square is free, the computer always has a move. */
  lemma AlwaysReplies(b: Board, pick: nat)
    requires Winner(b) == Empty && !IsFull(b)
    ensures ChooseAiMove(b, pick).Some?
  {
    if IsOpening(b) {
      OpeningReply(b, pick);
    } else {
      MinimaxBestMove(b, 0, true, O, X);
    }
  }

  /**
   * Outside the opening, the computer's move is the search's: an empty square
   * with the largest child score, the lowest such square on a tie.
   */
  lemma SearchReply(b: Board, pick: nat)
    requires !IsOpening(b) && Winner(b) == Empty && !IsFull(b)
    ensures var r := ChooseAiMove(b, pick);
      && r.Some? && r.value < 9 && b[r.value] == Empty
      && (forall j :: 0 <= j < 9 && b[j] == Empty ==>
            ChildScore(b, 0, true, O, X, j) <= ChildScore(b, 0, true, O, X, r.value))
      && (forall j :: 0 <= j < r.value && b[j] == Empty ==>
            ChildScore(b, 0, true, O, X, j) < ChildScore(b, 0, true, O, X, r.value))
  {
    MinimaxBestMove(b, 0, true, O, X);
  }

  /** Outside the opening, a square that completes a line for O is always taken. */
  lemma WinsWhenItCan(b: Board, pick: nat)
    requires !IsOpening(b) && Winner(b) == Empty && !IsFull(b)
    requires exists j :: 0 <= j < 9 && b[j] == Empty && Winner(b[j := O]) == O
    ensures var r := ChooseAiMove(b, pick);
      r.Some? && r.value < 9 && b[r.value] == Empty && Winner(b[r.value := O]) == O
  {
    TakesImmediateWin(b, 0, O, X);
  }

  // ---------------------------------------------------------------------------
  // Concrete boards

  /** X took a corner first: the computer answers in the centre. */
  lemma CornerOpeningTakesCentre(pick: nat)
    ensures ChooseAiMove([X, Empty, Empty, Empty, Empty, Empty, Empty, Empty, Empty], pick) == Some(4)
  {
    var b: Board := [X, Empty, Empty, Empty, Empty, Empty, Empty, Empty, Empty];
    assert CountOf(b, X) == 1 && CountOf(b, O) == 0;
    OpeningReply(b, pick);
  }

  /** X took the centre first: the computer answers in a corner. */
  lemma CentreOpeningTakesCorner(pick: nat)
    ensures var r := ChooseAiMove([Empty, Empty, Empty, Empty, X, Empty, Empty, Empty, Empty], pick);
      r.Some? && r.value in {0, 2, 6, 8}
  {
    var b: Board := [Empty, Empty, Empty, Empty, X, Empty, Empty, Empty, Empty];
    assert CountOf(b, X) == 1 && CountOf(b, O) == 0;
    OpeningReply(b, pick);
  }

  /** O holds 0 and 1, X holds 3, 4 and 8: the computer completes its own top row. */
  lemma CompletesOwnLine(pick: nat)
    ensures ChooseAiMove([O, O, Empty, X, X, Empty, Empty, Empty, X], pick) == Some(2)
  {
    var b: Board := [O, O, Empty, X, X, Empty, Empty, Empty, X];
    assert CountOf(b, X) == 3;
    assert Winner(b) == Empty;
    assert Winner(b[2 := O]) == O;
    assert CountEmpty(b) == 4;
    TakesImmediateWin(b, 0, O, X);
  }

  /** A full board without a complete line: a draw, and the computer has no move. */
  lemma FullBoardHasNoMove(pick: nat)
    ensures var b := [X, O, X, O, X, O, O, X, O];
      Winner(b) == Empty && IsFull(b) && ChooseAiMove(b, pick) == None
  {
    var b: Board := [X, O, X, O, X, O, O, X, O];
    assert CountOf(b, X) == 4;
    assert Winner(b) == Empty;
    MinimaxTerminal(b, 0, true, O, X);
  }
}
