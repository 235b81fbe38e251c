/**
 * The browser client's game state (client/main.js): the board it shows, the
 * game it joined, its colour, whose turn the server last announced, and the
 * moves it has sent. makeMove is the gravity drop; the socket handlers
 * overwrite the state with what the server says.
 */
module Client {
  import opened Grid
  import opened GameBoard

  /** The payload of a `playerMove` emit: the turn as the client saw it and its board. */
  datatype MoveMessage = MoveMessage(currentTurnColor: Color, gameState: seq<seq<Cell>>)

  /** How a click ends: a piece placed at a row, or one of the two alerts. */
  datatype MoveResult = Placed(row: int) | NoOpenSpace | NotYourTurn

  /**
   * `gameState[row][column] === 'blank'`: a column outside the board reads
   * `undefined`, which is never the string 'blank'.
   */
  predicate BlankAt(b: seq<seq<Cell>>, row: int, column: int)
    requires IsBoard(b)
  {
    0 <= row < Rows && 0 <= column < Cols && b[row][column] == Blank
  }

  /**
   * Where the scan that starts at `row` and walks up towards row 0 stops:
   * the blank cell of the column with the largest index not above `row`.
   */
  function LandingRow(b: seq<seq<Cell>>, column: int, row: int): (landing: Option<int>)
    requires IsBoard(b) && row < Rows
    decreases row + 1
    ensures landing.Some? ==>
      0 <= landing.value <= row && BlankAt(b, landing.value, column) &&
      forall k :: landing.value < k <= row ==> !BlankAt(b, k, column)
    ensures landing.None? ==> forall k :: 0 <= k <= row ==> !BlankAt(b, k, column)
  {
    if row < 0 then None
    else if BlankAt(b, row, column) then Some(row)
    else LandingRow(b, column, row - 1)
  }

  /**
   * The scan of makeMove from a given start row. With no start row (the
   * constant read is `undefined`) the loop test `undefined >= 0` is false
   * and nothing is found.
   */
  function Landing(b: seq<seq<Cell>>, column: int, maxRowIndex: Option<int>): (landing: Option<int>)
    requires IsBoard(b)
    requires maxRowIndex.Some? ==> maxRowIndex.value < Rows
  {
    match maxRowIndex
    case None => None
    case Some(start) => LandingRow(b, column, start)
  }

  /** Where a piece dropped into a column comes to rest, scanning from the bottom row. */
  function Drop(b: seq<seq<Cell>>, column: int): Option<int>
    requires IsBoard(b)
  {
    Landing(b, column, Some(MaxRowIndex))
  }

  /**
   * A drop lands on the blank cell with the largest row index, every cell
   * below it is already taken, and it finds nothing exactly when the column
   * is off the board or has no blank cell.
   */
  lemma DropIsLowestBlank(b: seq<seq<Cell>>, column: int)
    requires IsBoard(b)
    ensures Drop(b, column).Some? ==>
      var r := Drop(b, column).value;
      0 <= r < Rows && 0 <= column < Cols && b[r][column] == Blank &&
      forall k :: r < k < Rows ==> b[k][column] != Blank
    ensures Drop(b, column).None? <==>
      !(0 <= column < Cols) || forall k :: 0 <= k < Rows ==> b[k][column] != Blank
  {
    if Drop(b, column).Some? {
      var r := Drop(b, column).value;
      forall k | r < k < Rows
        ensures b[k][column] != Blank
      {
        assert !BlankAt(b, k, column);
      }
    } else if 0 <= column < Cols {
      forall k | 0 <= k < Rows
        ensures b[k][column] != Blank
      {
        assert !BlankAt(b, k, column);
      }
    }
  }

  /** The board with one cell overwritten. */
  function Place(b: seq<seq<Cell>>, row: int, column: int, x: Cell): (b': seq<seq<Cell>>)
    requires IsBoard(b) && 0 <= row < Rows && 0 <= column < Cols
    ensures IsBoard(b')
    ensures forall i, j :: 0 <= i < Rows && 0 <= j < Cols ==>
      b'[i][j] == if i == row && j == column then x else b[i][j]
  {
    b[row := b[row][column := x]]
  }

  /**
   * Dropping a piece keeps a board that obeys gravity obeying it: the new
   * piece rests on the bottom edge or on a piece.
   */
  lemma PlaceKeepsSettled(b: seq<seq<Cell>>, column: int, color: Color)
    requires IsBoard(b) && Settled(b) && Drop(b, column).Some?
    ensures
      var r := Drop(b, column).value;
      0 <= column < Cols && Settled(Place(b, r, column, color))
  {
    DropIsLowestBlank(b, column);
    var r := Drop(b, column).value;
    var b' := Place(b, r, column, color);
    forall i, j | 0 <= i < |b'| - 1 && 0 <= j < |b'[0]|
      ensures Supported(b', i, j)
    {
      assert Supported(b, i, j);
      if j == column && i == r {
        assert b[i + 1][j] != Blank;
      }
    }
  }

  /** makeMove's turn guard: the client has a colour and it is the announced turn. */
  predicate MayMove(playerColor: Option<Color>, currentTurnColor: Option<Color>) {
    playerColor.Some? && currentTurnColor.Some? && playerColor.value == currentTurnColor.value
  }

  /**
   * With the start row undefined nothing is ever found, whereas the
   * intended start row 5 finds the bottom cell of any column of a fresh board.
   */
  lemma WrittenScanNeverLands(b: seq<seq<Cell>>, column: int)
    requires IsBoard(b)
    ensures Landing(b, column, None) == None
    ensures 0 <= column < Cols ==> Drop(EmptyBoard(), column) == Some(MaxRowIndex)
  {
  }

  class ClientState {
    /** The board on screen. */
    var gameState: array2<Cell>
    /** `gameJoined`: unset until the server admits this client. */
    var gameJoined: Option<string>
    /** `playerColor`: unset until the server admits this client. */
    var playerColor: Option<Color>
    /** `currentTurnColor`: unset until the server announces a turn. */
    var currentTurnColor: Option<Color>
    /** The `playerMove` payloads sent so far, oldest first. */
    var sent: seq<MoveMessage>

    /** The board keeps the game's 6 by 7 shape. */
    ghost predicate Valid()
      reads this
    {
      gameState.Length0 == Rows && gameState.Length1 == Cols
    }

    /** Page load: a fresh blank board, nothing joined or announced, and no move sent. */
    constructor ()
      ensures Valid() && fresh(gameState)
      ensures Cells(gameState) == EmptyBoard()
      ensures gameJoined == None && playerColor == None && currentTurnColor == None && sent == []
    {
      var board := CreateGameBoard();
      gameState := board;
      gameJoined, playerColor, currentTurnColor, sent := None, None, None, [];
    }

    /**
     * makeMove with the start row read from the board module (None when that
     * read yields `undefined`). Without the turn the board and the sent moves
     * stay as they are. Otherwise the scan either writes the player's colour
     * into the one cell it lands on and sends the board with the announced
     * turn, or finds no blank cell and changes nothing.
     */
    method MakeMoveFrom(maxRowIndex: Option<int>, column: int) returns (result: MoveResult)
      requires Valid()
      requires maxRowIndex.Some? ==> maxRowIndex.value < Rows
      modifies gameState, this`sent
      ensures Valid()
      ensures result.NotYourTurn? <==> !MayMove(playerColor, currentTurnColor)
      ensures result.NoOpenSpace? <==>
        MayMove(playerColor, currentTurnColor) && Landing(old(Cells(gameState)), column, maxRowIndex).None?
      ensures !result.Placed? ==> Cells(gameState) == old(Cells(gameState)) && sent == old(sent)
      ensures result.Placed? ==>
        && Landing(old(Cells(gameState)), column, maxRowIndex) == Some(result.row)
        && 0 <= column < Cols
        && Cells(gameState) == Place(old(Cells(gameState)), result.row, column, playerColor.value)
        && sent == old(sent) + [MoveMessage(currentTurnColor.value, Cells(gameState))]
    {
      if !(playerColor.Some? && playerColor == currentTurnColor) {
        return NotYourTurn;
      }
      ghost var before := Cells(gameState);
      var row := maxRowIndex;
      while row.Some? && row.value >= 0
        invariant row.Some? ==> row.value < Rows
        invariant Landing(before, column, row) == Landing(before, column, maxRowIndex)
        invariant Cells(gameState) == before
        invariant sent == old(sent)
        decreases if row.Some? then row.value + 1 else 0
      {
        var r := row.value;
        if 0 <= column < Cols && gameState[r, column] == Blank {
          gameState[r, column] := playerColor.value;
          var board := Cells(gameState);
          sent := sent + [MoveMessage(currentTurnColor.value, board)];
          forall i | 0 <= i < Rows
            ensures Cells(gameState)[i] == board[i] == Place(before, r, column, playerColor.value)[i]
          {
          }
          assert Cells(gameState) == board;
          return Placed(r);
        }
        row := Some(r - 1);
      }
      return NoOpenSpace;
    }

    /** makeMove with the bottom row, 5, as the start of the scan. */
    method MakeMove(column: int) returns (result: MoveResult)
      requires Valid()
      modifies gameState, this`sent
      ensures Valid()
      ensures result.NotYourTurn? <==> !MayMove(playerColor, currentTurnColor)
      ensures result.NoOpenSpace? <==> MayMove(playerColor, currentTurnColor) && Drop(old(Cells(gameState)), column).None?
      ensures !result.Placed? ==> Cells(gameState) == old(Cells(gameState)) && sent == old(sent)
      ensures result.Placed? ==>
        && Drop(old(Cells(gameState)), column) == Some(result.row)
        && 0 <= column < Cols
        && Cells(gameState) == Place(old(Cells(gameState)), result.row, column, playerColor.value)
        && sent == old(sent) + [MoveMessage(currentTurnColor.value, Cells(gameState))]
    {
      result := MakeMoveFrom(Some(MaxRowIndex), column);
    }

    /**
     * makeMove as written in client/main.js: the start row it reads is `undefined`, so even on
     * the player's turn no piece is ever placed and nothing is sent.
     */
    method MakeMoveAsWritten(column: int) returns (result: MoveResult)
      requires Valid()
      modifies gameState, this`sent
      ensures Valid()
      ensures result.NotYourTurn? <==> !MayMove(playerColor, currentTurnColor)
      ensures MayMove(playerColor, currentTurnColor) ==> result == NoOpenSpace
      ensures Cells(gameState) == old(Cells(gameState)) && sent == old(sent)
    {
      result := MakeMoveFrom(None, column);
    }

    /** updateUiForAddedPlayer: record the admitted game and colour. */
    method UpdateUiForAddedPlayer(gameName: string, color: Color)
      modifies this`gameJoined, this`playerColor
      ensures gameJoined == Some(gameName) && playerColor == Some(color)
    {
      gameJoined := Some(gameName);
      playerColor := Some(color);
    }

    /** updateUiForGameStarted: record whose turn opens the game. */
    method UpdateUiForGameStarted(turn: Color)
      modifies this`currentTurnColor
      ensures currentTurnColor == Some(turn)
    {
      currentTurnColor := Some(turn);
    }

    /**
     * updateUiForGameStateUpdate: the server's board replaces the client's
     * wholesale (a new object, so no cell of the old board is shared) and the
     * announced turn replaces the old one.
     */
    method UpdateUiForGameStateUpdate(turn: Color, state: seq<seq<Cell>>)
      requires IsBoard(state)
      modifies this`gameState, this`currentTurnColor
      ensures Valid() && fresh(gameState)
      ensures Cells(gameState) == state && currentTurnColor == Some(turn)
    {
      gameState := new Cell[Rows, Cols]((i, j) requires 0 <= i < Rows && 0 <= j < Cols => state[i][j]);
      currentTurnColor := Some(turn);
      forall i | 0 <= i < Rows
        ensures Cells(gameState)[i] == state[i]
      {
      }
    }
  }
}
