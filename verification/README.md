# Connect Four: session registry, game-over test and client drop

A model of a two-player Connect Four game played in the browser over a
socket connection. It covers three parts.

- **The server's session registry** (`server.js`).
  - A table of named games; each game holds up to two sockets and whose turn it is.
  - The handlers `getListOfOpenGames`, `createNewGame`, `addPlayerToGame` and `playerMove`.
  - Every emit is recorded in order in an outbox, together with its event and payload.
- **The server's game-over test** (`isGameOver`).
  - A full top row ends the game.
  - So do four equal red or blue cells in a row, a column or a down-right diagonal.
- **The browser client's state** (`client/main.js`, `client/gameBoard.js`).
  - The 6 by 7 board, built blank.
  - The turn guard and the gravity drop of `makeMove`.
  - The handlers that overwrite the client's state with what the server announces.

Modules:

- `Grid` (`grid.dfy`): cells (`Blank | Red | Blue`), colours, the shape of a board, and gravity (`Settled`).
- `GameBoard` (`game_board.dfy`): `createGameBoard` as a method filling a fresh `array2`.
- `WinCheck` (`win_check.dfy`): `isGameOver`.
  - The string search is modelled as written: a comma `join`, then a match against `red,red,red,red` or `blue,blue,blue,blue`.
  - That search is proved equivalent to "four consecutive equal non-blank cells".
  - The method's loops are proved against the cell-level predicate `Terminal`.
- `Server` (`server.dfy`): the class `Registry`, whose fields are the following.
  - `games`, a map from name to game.
  - `order`, the names in insertion order.
  - `gameOf` and `colorOf`, standing for `socket.gameName` and `socket.playerColor`.
  - `outbox`.
  - Its invariant: every game is listed once, no game has more than two players, and every socket sits in the game it records, with the colour its position there gives. Each handler's effect on that invariant is proved as a lemma over plain values.
- `Client` (`client.dfy`): the class `ClientState`.
  - The board is an `array2<Cell>` updated in place.
  - The joined game, colour and announced turn are `Option`s, unset until the server sends them.
  - The `playerMove` payloads sent so far are recorded in order.

Three behaviours of the code differ from the usual rules of Connect Four; the model follows the code.

- **No move validation on the server.** `playerMove` (server.js:145-163) checks neither the mover's colour nor the board. It flips the turn, relays the board the client sent, and runs `isGameOver` on it.
  - `Server.Registry.PlayerMove` states exactly that.
  - `Server.MoveScenario` shows one socket moving twice in a row, with the turn flipping both times.
  - No game is ever marked finished, so moves keep being relayed after `gameOver`.
- **Only one diagonal slope is checked.** The second diagonal test (server.js:235-241) walks `(row-k, col-k)`. That is the same slope as the first test, so a four along `(row+k, col-k)` is never seen.
  - `WinCheck.Terminal` leaves that slope out.
  - `WinCheck.AntiDiagonalIgnored` exhibits a board with such a four that is not over.
- **The top-row test.** It ends the game whenever the top row is full, whether or not anyone has four.
  - On boards built by drops this means the board is full (`WinCheck.FullTopRowMeansFullBoard`).

## Model

| member | source | states |
|---|---|---|
| `GameBoard.EmptyBoard` | client/gameBoard.js:29-37 | the starting board has six rows of seven cells, every one blank |
| `GameBoard.EmptyBoardSettled` | client/gameBoard.js:29-37 | a fresh board obeys gravity and its top row still has a blank cell, so it is not full |
| `GameBoard.CreateGameBoard` | client/gameBoard.js:28-37 | returns a newly allocated 6 by 7 board, every cell blank; one cell is one array element, so no write reaches another row |
| `WinCheck.Column` | server.js:212-215 | the collected column has one cell per row, namely that row's cell at the column |
| `WinCheck.JoinAppend` | server.js:203 | joining two non-empty lines joined end to end is the two joins separated by one comma |
| `WinCheck.RunLiterals` | server.js:204 | the two patterns are the joins of four red cells and of four blue cells |
| `WinCheck.OccurrenceIsFour` | server.js:204 | an occurrence of the joined four-cell pattern anywhere in a joined line means four consecutive cells of that colour |
| `WinCheck.FourOccurs` | server.js:204 | four consecutive equal non-blank cells make the joined line match that colour's pattern |
| `WinCheck.JoinedFourIff` | server.js:203-204 | the regular-expression test on a joined line holds if and only if the line has four consecutive equal red or blue cells |
| `WinCheck.BlankLineNeverCounts` | server.js:204 | a run of blank cells never matches and never counts as four |
| `WinCheck.UpLeftIsDownRight` | server.js:235-241 | the second diagonal window at (r, c) holds four equal red or blue cells if and only if the first diagonal window at (r-3, c-3) does |
| `WinCheck.IsGameOver` | server.js:195-246 | the verdict is true exactly when the top row has no blank or some row, column or down-right diagonal has four equal red or blue cells; the board is not changed |
| `WinCheck.AllBlankNotTerminal` | server.js:195-246 | a board with no pieces and at least one column is not over |
| `WinCheck.LinesAreTerminal` | server.js:202-233 | four equal red or blue cells in a row, a column or a down-right diagonal end the game |
| `WinCheck.FullColumnBelowTop` | server.js:196-200 | on a board obeying gravity, a piece in the top row of a column means every cell of that column is taken |
| `WinCheck.FullTopRowMeansFullBoard` | server.js:196-200 | on a board obeying gravity, a full top row means a full board |
| `WinCheck.AntiDiagonalIgnored` | server.js:234-241 | a board whose only four lies along (row+k, col-k) is not over |
| `Server.OpenGames` | server.js:66-75 | a name is listed if and only if it is a listed game with fewer than two players; names appear once, and no more names than games |
| `Server.ToEach` | server.js:127-129 | one emit per player, in list order, each carrying the same event |
| `Server.IndexOf` | server.js:118 | -1 exactly when the socket is absent, otherwise the first position holding it |
| `Server.ColorFor` | server.js:117-120 | a seated socket is blue if and only if it is first in the players list, otherwise red |
| `Server.ColorForStable` | server.js:116-120 | a later arrival never changes the colour of a socket already seated |
| `Server.ArrivalOrderColors` | server.js:116-120 | the first socket is blue and a second, different socket is red; a socket admitted twice to a game is blue both times |
| `Server.Flip` | server.js:147 | the new turn always differs from the old |
| `Server.FlipTwiceRestores` | server.js:147-148 | two moves restore the turn |
| `Server.NewGame` | server.js:88 | a created game has no players and blue to move |
| `Server.CreateKeepsConsistent` | server.js:85-88 | adding a game under an unused name keeps the registry invariant, and the new game is open |
| `Server.JoinKeepsConsistent` | server.js:112-120 | seating a socket at the end of an open game keeps the registry invariant; no game exceeds two players and every seated socket keeps its colour |
| `Server.TurnKeepsConsistent` | server.js:147-148 | changing the turn of one game keeps the registry invariant |
| `Server.Registry.constructor` | server.js:24 | the server starts with no games, no seated sockets and nothing sent |
| `Server.Registry.GetOpenGamesArray` | server.js:66-75 | returns `OpenGames` of the names in insertion order: exactly the games with fewer than two players, each once; changes nothing |
| `Server.Registry.GetListOfOpenGames` | server.js:56-58 | sends the open-games list to the requesting socket only; nothing else changes |
| `Server.Registry.EmitToEach` | server.js:150-155 | appends one emit of the event per player, in list order |
| `Server.Registry.CreateNewGame` | server.js:84-100 | an unused name adds exactly one open game, with no players and blue to move, and leaves the other games untouched; the open list then goes to every socket, followed by `gameCreated` to the requester. A used name changes no game and sends only `failedToCreateGame` to the requester |
| `Server.Registry.AddPlayerToGame` | server.js:111-135 | an open game appends the socket and records its game and the colour its index gives, then sends `playerAddedToGame` to the requester. The arrival that makes two players sends `gameStarted`, with the game's turn, to both players. A missing or full game changes nothing and sends only `failedToAddPlayer`. The invariant keeps every game at two players or fewer |
| `Server.Registry.PlayerMove` | server.js:145-163 | the mover's game gets the flipped turn and nothing else changes. Its players receive the client's board unchanged, with the new turn, and then `gameOver` if and only if that board is terminal. A socket without a game throws and changes nothing |
| `Client.LandingRow` | client/main.js:86-94 | the scan stops at the blank cell with the largest row index not beyond its start, or finds none when no such cell is blank |
| `Client.DropIsLowestBlank` | client/main.js:86-89 | a drop lands on a blank cell and every cell below it in the column is taken; it finds nothing if and only if the column is off the board or full |
| `Client.Place` | client/main.js:89 | the named cell takes the new value and no other cell changes |
| `Client.PlaceKeepsSettled` | client/main.js:86-89 | a dropped piece rests on the bottom edge or on a piece, so a board obeying gravity keeps obeying it |
| `Client.WrittenScanNeverLands` | client/main.js:86 | with the start row `undefined` the scan finds nothing; from row 5 it finds the bottom cell of any column on a fresh board |
| `Client.ClientState.constructor` | client/main.js:18-21 | page load gives a fresh blank board, with no game, colour or turn set and no move sent |
| `Client.ClientState.MakeMoveFrom` | client/main.js:71-101 | without the turn, neither the board nor the sent moves change. On the player's turn the move either places the colour in the landing cell and sends that board once with the announced turn, or finds no blank cell and changes nothing |
| `Client.ClientState.MakeMove` | client/main.js:71-101 | as above, scanning from the bottom row: the piece lands in the lowest blank cell of the column, exactly one cell changes, and a full or off-board column changes nothing |
| `Client.ClientState.MakeMoveAsWritten` | client/main.js:71-101 | as written in client/main.js, no click ever places a piece or sends a move; the player whose turn it is gets the no-open-space alert |
| `Client.ClientState.UpdateUiForAddedPlayer` | client/main.js:126-128 | records the admitted game and colour |
| `Client.ClientState.UpdateUiForGameStarted` | client/main.js:140-141 | records the announced turn |
| `Client.ClientState.UpdateUiForGameStateUpdate` | client/main.js:154-156 | the server's board and turn replace the client's wholesale, on a newly allocated board |

## Left out

- Sockets, the HTTP server, event binding and the emit transport (server.js:7-32, 169-179). Sockets are plain ids, and each emit is a record appended to an outbox.
- The DOM, alerts and HTML building in client/main.js: `createNewGame`, `joinSelectedGame`, `displayListOfGames` and the socket bindings. `makeMove`'s two alerts become the results `NoOpenSpace` and `NotYourTurn`.
- Canvas drawing and the colour table: `renderBoard` and the grid lines of `createGameBoard`. This is graphics over floating-point pixels; it does not touch the board.
- The pixel-to-column arithmetic of `makeMove` (client/main.js:79-80). It uses floating-point division and `Math.floor`, so the column is an integer parameter. A column outside 0..6 reads `undefined` and places nothing.
- `for...in` enumeration quirks. Integer-like game names are visited before the others. The model visits games in insertion order, and `Server.OpenGames` also states the result as a set.
- Object-key quirks: names such as `hasOwnProperty` or `__proto__` behave specially as object keys. Names are plain map keys here.
- Boards sent by a client are taken to be well formed: the server needs at least one row and rows of equal length, and the client needs 6 by 7. Malformed boards make the JavaScript throw, or compare `undefined` cells, and are not modelled.
- Server.Registry.PlayerMove: a socket that never joined a game looks up the game named "undefined". If such a game exists, the move flips its turn and relays the board to its players, exactly as the source does; if none exists, the handler throws and nothing changes.
- client/bundle.js is a bundled copy of the two client files, with an older `makeMove`. It is not part of this model, except that its hard-coded start row 5 is the intended value of `MaxRowIndex`.
- Disconnects: the source never removes a socket from a game, and neither does the model.

## Findings

| source | as written | input that shows it | evidently intended | confidence | as-written member | corrected member |
|---|---|---|---|---|---|---|
| client/main.js:86 | `makeMove` starts its scan at `gameBoard.MAX_ROW_INDEX`. client/gameBoard.js:87-90 exports only `createGameBoard` and `renderBoard`, so that value is `undefined`, `undefined >= 0` is false, and the loop never runs. (`NUM_COLS_ON_BOARD` at line 79 is likewise `undefined`, which makes the column `NaN`.) | any click by the player whose turn it is, e.g. column 0 on a fresh board: no piece is placed, nothing is sent, and the "no open spaces" alert appears | start at the bottom row, 5 (as in client/bundle.js:173), and place the piece in the lowest blank cell of the column | high (not executed) | `Client.ClientState.MakeMoveAsWritten`, `Client.WrittenScanNeverLands` | `Client.ClientState.MakeMove` |
