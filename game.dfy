/**
 * The component's game state: the board and whose turn it is, the click
 * handler that places a mark, the computer's turn, and the session that
 * also keeps the scoreboard and resets rounds and games.
 */
module Game {
  import opened Options
  import opened Board
  import opened Opponent

  /** `GameMode`: against the computer, or two people at one board. */
  datatype Mode = VersusAI | TwoPlayers

  /** The board and the `xIsNext` flag. */
  datatype Position = Position(board: Board, xIsNext: bool)

  /** The state every round starts from: an empty board, X to move. */
  const Start: Position := Position(EmptyBoard, true)

  /** The mark of the player to move. */
  function Turn(xIsNext: bool): (c: Cell) {
    if xIsNext then X else O
  }

  /** Number of marks on the board. */
  function MovesMade(b: Board): (n: nat) {
    CountOf(b, X) + CountOf(b, O)
  }

  /**
   * `handleClick(index)`: ignored on an occupied square or once someone has
   * won; otherwise the mover's mark goes on square `index`, nothing else on
   * the board changes, and the turn passes.
   */
  function ApplyClick(p: Position, index: nat): (q: Position)
    requires index < 9
    ensures p.board[index] != Empty || Winner(p.board) != Empty ==> q == p
    ensures p.board[index] == Empty && Winner(p.board) == Empty ==>
      && q.board[index] == Turn(p.xIsNext)
      && (forall j :: 0 <= j < 9 && j != index ==> q.board[j] == p.board[j])
      && q.xIsNext == !p.xIsNext
  {
    if p.board[index] != Empty || Winner(p.board) != Empty then p
    else Position(p.board[index := Turn(p.xIsNext)], !p.xIsNext)
  }

  /**
   * Strict alternation as a state invariant: X has one mark more than O
   * exactly when it is O's turn, and as many otherwise.
   */
  predicate Balanced(p: Position) {
    CountOf(p.board, X) == CountOf(p.board, O) + (if p.xIsNext then 0 else 1)
  }

  /** A click either changes nothing or adds exactly one mark and passes the turn. */
  lemma ClickCountsOneMove(p: Position, index: nat)
    requires index < 9
    ensures var q := ApplyClick(p, index);
      q == p || (MovesMade(q.board) == MovesMade(p.board) + 1 && q.xIsNext == !p.xIsNext
                 && CountEmpty(q.board) == CountEmpty(p.board) - 1)
  {
    var q := ApplyClick(p, index);
    if q != p {
      CountOfUpdate(p.board, index, Turn(p.xIsNext), X);
      CountOfUpdate(p.board, index, Turn(p.xIsNext), O);
      CountAfterMove(p.board, index, Turn(p.xIsNext));
    }
  }

  /** Every click keeps the turn flag in step with the marks on the board. */
  lemma ClickKeepsBalance(p: Position, index: nat)
    requires index < 9
    requires Balanced(p)
    ensures Balanced(ApplyClick(p, index))
  {
    var q := ApplyClick(p, index);
    if q != p {
      CountOfUpdate(p.board, index, Turn(p.xIsNext), X);
      CountOfUpdate(p.board, index, Turn(p.xIsNext), O);
    }
  }

  /** The position after a sequence of clicks. */
  function PlayClicks(p: Position, clicks: seq<nat>): (q: Position)
    requires forall k :: 0 <= k < |clicks| ==> clicks[k] < 9
    decreases |clicks|
  {
    if |clicks| == 0 then p else PlayClicks(ApplyClick(p, clicks[0]), clicks[1..])
  }

  lemma {:induction false} PlayKeepsBalance(p: Position, clicks: seq<nat>)
    requires forall k :: 0 <= k < |clicks| ==> clicks[k] < 9
    requires Balanced(p)
    ensures Balanced(PlayClicks(p, clicks))
    decreases |clicks|
  {
    if |clicks| > 0 {
      ClickKeepsBalance(p, clicks[0]);
      PlayKeepsBalance(ApplyClick(p, clicks[0]), clicks[1..]);
    }
  }

  /** A round starts balanced: no marks, X to move. */
  lemma StartBalanced()
    ensures Balanced(Start) && MovesMade(Start.board) == 0
  {
    assert CountOf(EmptyBoard, X) == 0 && CountOf(EmptyBoard, O) == 0;
  }

  /**
   * From the start of a round, after any clicks, X is to move exactly when an
   * even number of marks has been placed.
   */
  lemma Alternation(clicks: seq<nat>)
    requires forall k :: 0 <= k < |clicks| ==> clicks[k] < 9
    ensures var q := PlayClicks(Start, clicks);
      Balanced(q) && (q.xIsNext <==> MovesMade(q.board) % 2 == 0)
  {
    StartBalanced();
    PlayKeepsBalance(Start, clicks);
    BalancedParity(PlayClicks(Start, clicks));
  }

  /** In a balanced position X is to move exactly when the number of marks is even. */
  lemma BalancedParity(p: Position)
    requires Balanced(p)
    ensures p.xIsNext <==> MovesMade(p.board) % 2 == 0
  {
  }

  /**
   * The computer's turn (the effect at lines 129-163 of the component): when
   * the game runs against the computer, nobody has won and O is to move, the
   * chosen square is clicked if it is still empty. Either nothing changes, or
   * one O lands on an empty square and X moves next.
   */
  function AiTurn(p: Position, gameStarted: bool, mode: Option<Mode>, pick: nat): (q: Position)
    ensures q == p || exists m :: 0 <= m < 9 && p.board[m] == Empty && q == Position(p.board[m := O], true)
    ensures !(gameStarted && mode == Some(VersusAI)) ==> q == p
  {
    if gameStarted && mode == Some(VersusAI) && Winner(p.board) == Empty && !p.xIsNext then
      match ChooseAiMove(p.board, pick)
      case Some(m) =>
        if p.board[m] == Empty then
          assert ApplyClick(p, m) == Position(p.board[m := O], true);
          ApplyClick(p, m)
        else p
      case None => p
    else p
  }

  /**
   * On the computer's turn of an unfinished round it places one O on an empty
   * square, and X moves next.
   */
  lemma AiTurnPlaysO(p: Position, pick: nat)
    requires Winner(p.board) == Empty && !IsFull(p.board) && !p.xIsNext
    ensures var q := AiTurn(p, true, Some(VersusAI), pick);
      exists m :: 0 <= m < 9 && p.board[m] == Empty && q == Position(p.board[m := O], true)
  {
    AlwaysReplies(p.board, pick);
    var m := ChooseAiMove(p.board, pick).value;
    assert AiTurn(p, true, Some(VersusAI), pick) == Position(p.board[m := O], true);
  }

  /** The computer's turn keeps the turn flag in step with the marks. */
  lemma AiTurnKeepsBalance(p: Position, gameStarted: bool, mode: Option<Mode>, pick: nat)
    requires Balanced(p)
    ensures Balanced(AiTurn(p, gameStarted, mode, pick))
  {
    var r := ChooseAiMove(p.board, pick);
    if r.Some? {
      ClickKeepsBalance(p, r.value);
    }
  }

  /**
   * The component's state. Handlers are methods; the two effects (the
   * computer's move and the score update) are `AiMove` and `RecordResult`,
   * each run once where React would run the effect.
   */
  class Session {
    var gameStarted: bool
    var mode: Option<Mode>
    var board: Board
    var xIsNext: bool
    var scoreX: nat
    var scoreO: nat
    var draws: nat

    ghost predicate Valid()
      reads this
    {
      Balanced(Position(board, xIsNext))
    }

    function Pos(): Position
      reads this
    {
      Position(board, xIsNext)
    }

    function Total(): nat
      reads this
    {
      scoreX + scoreO + draws
    }

    constructor ()
      ensures Valid()
      ensures !gameStarted && mode == None && board == EmptyBoard && xIsNext
      ensures scoreX == 0 && scoreO == 0 && draws == 0
    {
      gameStarted, mode, board, xIsNext := false, None, EmptyBoard, true;
      scoreX, scoreO, draws := 0, 0, 0;
      assert CountOf(EmptyBoard, X) == 0 && CountOf(EmptyBoard, O) == 0;
    }

    /** `handleClick`: the position moves to `ApplyClick` of the old one; the rest is kept. */
    method HandleClick(index: nat)
      requires index < 9
      requires Valid()
      modifies this`board, this`xIsNext
      ensures Valid()
      ensures Pos() == ApplyClick(old(Pos()), index)
    {
      ClickKeepsBalance(Pos(), index);
      if board[index] != Empty || Winner(board) != Empty {
        return;
      }
      var newBoard := board[index := Turn(xIsNext)];
      board := newBoard;
      xIsNext := !xIsNext;
    }

    /** The computer's move effect, with `pick` standing for the random corner draw. */
    method AiMove(pick: nat)
      requires Valid()
      modifies this`board, this`xIsNext
      ensures Valid()
      ensures Pos() == AiTurn(old(Pos()), gameStarted, mode, pick)
    {
      if gameStarted && mode == Some(VersusAI) && Winner(board) == Empty && !xIsNext {
        var aiMove := ChooseAiMoveOnCopy(board, pick);
        if aiMove.Some? && board[aiMove.value] == Empty {
          HandleClick(aiMove.value);
        }
      }
    }

    /**
     * The score effect: a won board adds one to the winner's counter, a full
     * board without a winner (once the game has started) adds one draw, and
     * nothing else changes a counter.
     */
    method RecordResult()
      modifies this`scoreX, this`scoreO, this`draws
      ensures Winner(board) == X ==> scoreX == old(scoreX) + 1 && scoreO == old(scoreO) && draws == old(draws)
      ensures Winner(board) == O ==> scoreO == old(scoreO) + 1 && scoreX == old(scoreX) && draws == old(draws)
      ensures Winner(board) == Empty && gameStarted && IsFull(board) ==>
        draws == old(draws) + 1 && scoreX == old(scoreX) && scoreO == old(scoreO)
      ensures Winner(board) == Empty && !(gameStarted && IsFull(board)) ==>
        scoreX == old(scoreX) && scoreO == old(scoreO) && draws == old(draws)
      ensures Total() == old(Total()) + (if Winner(board) != Empty || (gameStarted && IsFull(board)) then 1 else 0)
    {
      var winner := CalculateWinner(board);
      if winner == X {
        scoreX := scoreX + 1;
      } else if winner == O {
        scoreO := scoreO + 1;
      } else if gameStarted && IsFull(board) {
        draws := draws + 1;
      }
    }

    /** `handleStart`: a fresh round in the chosen mode; the scores are kept. */
    method HandleStart(selected: Mode)
      modifies this`mode, this`gameStarted, this`board, this`xIsNext
      ensures Valid()
      ensures mode == Some(selected) && gameStarted && Pos() == Start
    {
      mode, gameStarted := Some(selected), true;
      board, xIsNext := EmptyBoard, true;
      assert CountOf(EmptyBoard, X) == 0 && CountOf(EmptyBoard, O) == 0;
    }

    /** `handleReset` and `handleNextRound`: the board is cleared and X moves; scores are kept. */
    method HandleReset()
      modifies this`board, this`xIsNext
      ensures Valid()
      ensures Pos() == Start
    {
      board, xIsNext := EmptyBoard, true;
      assert CountOf(EmptyBoard, X) == 0 && CountOf(EmptyBoard, O) == 0;
    }

    /** `handleNewGame`: back to mode selection with every counter at zero. */
    method HandleNewGame()
      modifies this
      ensures Valid()
      ensures !gameStarted && mode == None && Pos() == Start
      ensures scoreX == 0 && scoreO == 0 && draws == 0
    {
      gameStarted, mode := false, None;
      board, xIsNext := EmptyBoard, true;
      scoreX, scoreO, draws := 0, 0, 0;
      assert CountOf(EmptyBoard, X) == 0 && CountOf(EmptyBoard, O) == 0;
    }

    /** `handleRestartGame` ("Change Mode"): back to mode selection; the scores are kept. */
    method HandleRestartGame()
      modifies this`gameStarted, this`mode, this`board, this`xIsNext
      ensures Valid()
      ensures !gameStarted && mode == None && Pos() == Start
    {
      gameStarted, mode := false, None;
      board, xIsNext := EmptyBoard, true;
      assert CountOf(EmptyBoard, X) == 0 && CountOf(EmptyBoard, O) == 0;
    }
  }
}
