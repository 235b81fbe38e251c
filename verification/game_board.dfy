/**
 * The client's board construction (client/gameBoard.js, createGameBoard):
 * a 6 by 7 grid of blank cells. The canvas drawing is not modelled.
 */
module GameBoard {
  import opened Grid

  const Rows: nat := 6
  const Cols: nat := 7
  /** The bottom row, where a drop starts scanning (hard-coded 5 in client/bundle.js). */
  const MaxRowIndex: int := Rows - 1

  /** A board of the game's fixed size. */
  predicate IsBoard(b: seq<seq<Cell>>) {
    |b| == Rows && forall r :: 0 <= r < Rows ==> |b[r]| == Cols
  }

  /** The board of a fresh game. */
  function EmptyBoard(): (b: seq<seq<Cell>>)
    ensures IsBoard(b) && IsGrid(b)
    ensures forall r, c :: 0 <= r < Rows && 0 <= c < Cols ==> b[r][c] == Blank
  {
    seq(Rows, _ => seq(Cols, _ => Blank))
  }

  /** The rows of a two-dimensional array, as the nested arrays the JavaScript code sends. */
  function Cells(a: array2<Cell>): (b: seq<seq<Cell>>)
    reads a
    ensures |b| == a.Length0
    ensures forall i :: 0 <= i < a.Length0 ==> |b[i]| == a.Length1
    ensures forall i, j :: 0 <= i < a.Length0 && 0 <= j < a.Length1 ==> b[i][j] == a[i, j]
  {
    seq(a.Length0, i requires 0 <= i < a.Length0 reads a => seq(a.Length1, j reads a requires 0 <= i < a.Length0 && 0 <= j < a.Length1 => a[i, j]))
  }

  /** A fresh board obeys gravity, and its top row still has room. */
  lemma EmptyBoardSettled()
    ensures Settled(EmptyBoard())
    ensures Blank in EmptyBoard()[0]
  {
    assert EmptyBoard()[0][0] == Blank;
  }

  /**
   * createGameBoard: six rows pushed one by one, each filled with seven
   * 'blank' strings. Every cell is written by the nested loops.
   */
  method CreateGameBoard() returns (gameState: array2<Cell>)
    ensures fresh(gameState)
    ensures gameState.Length0 == Rows && gameState.Length1 == Cols
    ensures forall i, j :: 0 <= i < Rows && 0 <= j < Cols ==> gameState[i, j] == Blank
    ensures Cells(gameState) == EmptyBoard()
  {
    gameState := new Cell[Rows, Cols];
    for i := 0 to Rows
      invariant forall r, c :: 0 <= r < i && 0 <= c < Cols ==> gameState[r, c] == Blank
    {
      for j := 0 to Cols
        invariant forall r, c :: 0 <= r < i && 0 <= c < Cols ==> gameState[r, c] == Blank
        invariant forall c :: 0 <= c < j ==> gameState[i, c] == Blank
      {
        gameState[i, j] := Blank;
      }
    }
    forall i | 0 <= i < Rows
      ensures Cells(gameState)[i] == EmptyBoard()[i]
    {
    }
  }
}
