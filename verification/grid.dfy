/**
 * Values shared by the server and the client of the Connect Four game: the
 * three cell strings, the two player colours and the shape of a board.
 */
module Grid {

  datatype Option<T> = None | Some(value: T)

  /** One slot of the board: the strings 'blank', 'red' and 'blue'. */
  datatype Cell = Blank | Red | Blue

  /** A player colour ('blue' or 'red'): a cell value other than Blank. */
  type Color = c: Cell | c != Blank witness Red

  /**
   * A board as the server walks it: at least one row (row 0 is always read)
   * and every row as long as row 0. Row 0 is the top row.
   */
  predicate IsGrid(g: seq<seq<Cell>>) {
    |g| > 0 && forall r :: 0 <= r < |g| ==> |g[r]| == |g[0]|
  }

  /** The piece at (r, c), if any, rests on a piece (row r + 1 is below row r). */
  predicate Supported(g: seq<seq<Cell>>, r: int, c: int)
    requires IsGrid(g) && 0 <= r < |g| - 1 && 0 <= c < |g[0]|
  {
    g[r][c] != Blank ==> g[r + 1][c] != Blank
  }

  /** Gravity: no piece rests on a blank cell. */
  predicate Settled(g: seq<seq<Cell>>)
    requires IsGrid(g)
  {
    forall r, c :: 0 <= r < |g| - 1 && 0 <= c < |g[0]| ==> Supported(g, r, c)
  }
}
