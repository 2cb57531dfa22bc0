/**
 * The 3x3 board of the game, its eight winning lines, and the scans the
 * component runs over a board: win detection, the list of free squares and
 * the (unused) blocking-move finder.
 */
module Board {
  import opened Options

  /** A square: empty (`null` in the component) or holding a player's mark. */
  datatype Cell = Empty | X | O

  /** A square index, 0..8 in row-major order. */
  type Index = i: nat | i < 9

  /** Nine squares in row-major order. */
  type Board = s: seq<Cell> | |s| == 9
    witness [Empty, Empty, Empty, Empty, Empty, Empty, Empty, Empty, Empty]

  const EmptyBoard: Board := [Empty, Empty, Empty, Empty, Empty, Empty, Empty, Empty, Empty]

  /** Three squares that win when they hold the same mark. */
  datatype Line = Line(a: Index, b: Index, c: Index)

  /** The rows, the columns and the two diagonals, in the order they are scanned. */
  const Lines: seq<Line> := [
    Line(0, 1, 2), Line(3, 4, 5), Line(6, 7, 8),
    Line(0, 3, 6), Line(1, 4, 7), Line(2, 5, 8),
    Line(0, 4, 8), Line(2, 4, 6)
  ]

  /** Number of squares of `s` holding `c`. */
  function CountOf(s: seq<Cell>, c: Cell): (n: nat)
    ensures n <= |s|
  {
    if |s| == 0 then 0 else (if s[0] == c then 1 else 0) + CountOf(s[1..], c)
  }

  function CountEmpty(b: Board): (n: nat) { CountOf(b, Empty) }

  /** Writing `v` at `i` moves one square from the count of `s[i]` to the count of `v`. */
  lemma {:induction false} CountOfUpdate(s: seq<Cell>, i: nat, v: Cell, c: Cell)
    requires i < |s|
    ensures CountOf(s[i := v], c)
         == CountOf(s, c) - (if s[i] == c then 1 else 0) + (if v == c then 1 else 0)
  {
    if i == 0 {
      assert s[i := v][1..] == s[1..];
    } else {
      assert s[i := v][1..] == s[1..][i - 1 := v];
      CountOfUpdate(s[1..], i - 1, v, c);
    }
  }

  /** A mark is absent exactly when its count is zero. */
  lemma {:induction false} CountOfZero(s: seq<Cell>, c: Cell)
    ensures CountOf(s, c) == 0 <==> forall i :: 0 <= i < |s| ==> s[i] != c
  {
    if |s| > 0 {
      CountOfZero(s[1..], c);
      assert forall i :: 1 <= i < |s| ==> s[i] == s[1..][i - 1];
    }
  }

  /** `board.every(Boolean)`: no square is empty, that is, no empty square is left to count. */
  predicate IsFull(b: Board): (r: bool)
    ensures r <==> CountEmpty(b) == 0
  {
    CountOfZero(b, Empty);
    forall i :: 0 <= i < 9 ==> b[i] != Empty
  }

  /** Placing a mark on an empty square leaves one empty square fewer. */
  lemma CountAfterMove(b: Board, i: nat, m: Cell)
    requires i < 9 && b[i] == Empty && m != Empty
    ensures CountEmpty(b[i := m]) == CountEmpty(b) - 1
  {
    CountOfUpdate(b, i, m, Empty);
  }

  /** If `c` occurs once, at `k`, it occurs nowhere else. */
  lemma OnlyOccurrence(s: seq<Cell>, k: nat, c: Cell)
    requires k < |s| && s[k] == c && c != Empty && CountOf(s, c) == 1
    ensures forall i :: 0 <= i < |s| && i != k ==> s[i] != c
  {
    CountOfUpdate(s, k, Empty, c);
    CountOfZero(s[k := Empty], c);
    assert forall i :: 0 <= i < |s| && i != k ==> s[k := Empty][i] == s[i];
  }

  // ---------------------------------------------------------------------------
  // calculateWinner

  /** The line's three squares hold the same mark. */
  predicate Completes(b: Board, l: Line) {
    b[l.a] != Empty && b[l.a] == b[l.b] && b[l.a] == b[l.c]
  }

  /** Line `k` is complete and no line scanned before it is. */
  predicate FirstComplete(b: Board, k: int) {
    0 <= k < 8 && Completes(b, Lines[k]) && forall j :: 0 <= j < k ==> !Completes(b, Lines[j])
  }

  /** The result of scanning lines k..7 in order; `Empty` stands for `null`. */
  function WinnerFrom(b: Board, k: nat): (r: Cell)
    requires k <= 8
    decreases 8 - k
  {
    if k == 8 then Empty
    else if Completes(b, Lines[k]) then b[Lines[k].a]
    else WinnerFrom(b, k + 1)
  }

  /** The mark filling the first complete line, or `Empty` for `null`. */
  function Winner(b: Board): (r: Cell) { WinnerFrom(b, 0) }

  lemma {:induction false} WinnerFromSpec(b: Board, k: nat)
    requires k <= 8
    requires forall j :: 0 <= j < k ==> !Completes(b, Lines[j])
    ensures WinnerFrom(b, k) == Empty ==> forall j :: k <= j < 8 ==> !Completes(b, Lines[j])
    ensures WinnerFrom(b, k) != Empty ==>
      exists j :: FirstComplete(b, j) && WinnerFrom(b, k) == b[Lines[j].a]
    decreases 8 - k
  {
    if k < 8 {
      if Completes(b, Lines[k]) {
        assert FirstComplete(b, k);
      } else {
        WinnerFromSpec(b, k + 1);
      }
    }
  }

  /**
   * The winner is `null` exactly when no line is complete; otherwise it is the
   * mark of the first complete line in scan order (and is never `Empty`).
   */
  lemma WinnerSpec(b: Board)
    ensures Winner(b) == Empty <==> forall j :: 0 <= j < 8 ==> !Completes(b, Lines[j])
    ensures forall k :: FirstComplete(b, k) ==> Winner(b) == b[Lines[k].a]
  {
    WinnerFromSpec(b, 0);
    forall k | FirstComplete(b, k)
      ensures Winner(b) == b[Lines[k].a]
    {
      var j :| FirstComplete(b, j) && Winner(b) == b[Lines[j].a];
      assert j == k;
    }
  }

  /** A complete line of `m`, with no complete line of another mark, makes `m` the winner. */
  lemma WinnerOfLine(b: Board, k: nat, m: Cell)
    requires k < 8 && Completes(b, Lines[k]) && b[Lines[k].a] == m
    requires forall j :: 0 <= j < 8 && Completes(b, Lines[j]) ==> b[Lines[j].a] == m
    ensures Winner(b) == m
  {
    WinnerSpec(b);
    assert Winner(b) != Empty;
    WinnerFromSpec(b, 0);
  }

  /** The component's loop over the lines, returning at the first complete one. */
  method CalculateWinner(squares: Board) returns (w: Cell)
    ensures w == Empty <==> forall j :: 0 <= j < 8 ==> !Completes(squares, Lines[j])
    ensures w != Empty ==> exists j :: FirstComplete(squares, j) && w == squares[Lines[j].a]
    ensures w == Winner(squares)
  {
    var i := 0;
    while i < |Lines|
      invariant 0 <= i <= 8
      invariant forall j :: 0 <= j < i ==> !Completes(squares, Lines[j])
      invariant WinnerFrom(squares, i) == Winner(squares)
    {
      var line := Lines[i];
      if squares[line.a] != Empty && squares[line.a] == squares[line.b]
         && squares[line.a] == squares[line.c]
      {
        assert FirstComplete(squares, i);
        return squares[line.a];
      }
      i := i + 1;
    }
    return Empty;
  }

  // ---------------------------------------------------------------------------
  // getAvailableMoves

  /** The empty squares among i..8, in increasing order. */
  function AvailableFrom(b: Board, i: nat): (r: seq<nat>)
    requires i <= 9
    ensures forall k :: 0 <= k < |r| ==> i <= r[k] < 9 && b[r[k]] == Empty
    ensures forall j :: i <= j < 9 && b[j] == Empty ==> j in r
    ensures forall k, l :: 0 <= k < l < |r| ==> r[k] < r[l]
    decreases 9 - i
  {
    if i == 9 then []
    else if b[i] == Empty then [i] + AvailableFrom(b, i + 1)
    else AvailableFrom(b, i + 1)
  }

  /** Exactly the empty squares, each once, in increasing order. */
  function AvailableMoves(b: Board): (r: seq<nat>)
    ensures forall k :: 0 <= k < |r| ==> r[k] < 9 && b[r[k]] == Empty
    ensures forall j :: 0 <= j < 9 && b[j] == Empty ==> j in r
    ensures forall k, l :: 0 <= k < l < |r| ==> r[k] < r[l]
  {
    AvailableFrom(b, 0)
  }

  // ---------------------------------------------------------------------------
  // findBlockingMove

  /** Number of the line's three squares holding `c`. */
  function CountOnLine(b: Board, l: Line, c: Cell): nat {
    (if b[l.a] == c then 1 else 0) + (if b[l.b] == c then 1 else 0) + (if b[l.c] == c then 1 else 0)
  }

  /** The line holds exactly two `opponent` marks and at least one empty square. */
  predicate Threatens(b: Board, l: Line, opponent: Cell) {
    CountOnLine(b, l, opponent) == 2 && (b[l.a] == Empty || b[l.b] == Empty || b[l.c] == Empty)
  }

  /** Line `k` is a threat and no line scanned before it is. */
  predicate FirstThreat(b: Board, opponent: Cell, k: int) {
    0 <= k < 8 && Threatens(b, Lines[k], opponent)
    && forall j :: 0 <= j < k ==> !Threatens(b, Lines[j], opponent)
  }

  /** `i` is the first empty square of the line, taken in the order a, b, c. */
  predicate FirstEmptyOnLine(b: Board, l: Line, i: nat) {
    || (i == l.a && b[l.a] == Empty)
    || (i == l.b && b[l.a] != Empty && b[l.b] == Empty)
    || (i == l.c && b[l.a] != Empty && b[l.b] != Empty && b[l.c] == Empty)
  }

  /**
   * The first line holding two `opponent` marks and an empty square, and that
   * empty square; `ai` is accepted and not used, as in the component.
   */
  method FindBlockingMove(board: Board, ai: Cell, opponent: Cell) returns (r: Option<nat>)
    ensures r.None? <==> forall j :: 0 <= j < 8 ==> !Threatens(board, Lines[j], opponent)
    ensures r.Some? ==> exists k :: FirstThreat(board, opponent, k)
                                    && FirstEmptyOnLine(board, Lines[k], r.value)
    ensures r.Some? ==> r.value < 9 && board[r.value] == Empty
    ensures r.Some? && opponent != Empty ==>
      exists k :: (FirstThreat(board, opponent, k) && CountOnLine(board, Lines[k], opponent) == 2
                   && CountOnLine(board, Lines[k], Empty) == 1)
  {
    var i := 0;
    while i < |Lines|
      invariant 0 <= i <= 8
      invariant forall j :: 0 <= j < i ==> !Threatens(board, Lines[j], opponent)
    {
      var line := Lines[i];
      var values := [board[line.a], board[line.b], board[line.c]];
      var opponentCount := (if values[0] == opponent then 1 else 0)
        + (if values[1] == opponent then 1 else 0) + (if values[2] == opponent then 1 else 0);
      if opponentCount == 2 && Empty in values {
        assert FirstThreat(board, opponent, i);
        var emptyIndex := if values[0] == Empty then line.a
                          else if values[1] == Empty then line.b
                          else line.c;
        return Some(emptyIndex);
      }
      i := i + 1;
    }
    return None;
  }
}
