/**
 * The server's session bookkeeping (server.js): the `games` table keyed by
 * game name, the per-socket `gameName` and `playerColor`, and the events
 * the handlers emit. Sockets are ids; every emit is a record appended to
 * an outbox, in the order the source emits.
 */
module Server {
  import opened Grid
  import WinCheck

  /** A connected socket; the model only tells sockets apart. */
  type SocketId = nat

  /** One entry of `games`: the joined sockets in arrival order and whose turn it is. */
  datatype Game = Game(players: seq<SocketId>, currentTurnColor: Color)

  /** The events the server sends, with their payloads. */
  datatype Event =
    | DisplayListOfGames(openGameNames: seq<string>)
    | GameCreated
    | FailedToCreateGame
    | PlayerAddedToGame(playerColor: Color, gameName: string)
    | FailedToAddPlayer
    | GameStarted(currentTurnColor: Color)
    | GameStateUpdate(currentTurnColor: Color, gameState: seq<seq<Cell>>)
    | GameOver

  /** `socket.emit` goes to one socket, `io.emit` to every connected socket. */
  datatype Recipient = Socket(id: SocketId) | AllSockets

  datatype Emit = Emit(to: Recipient, event: Event)

  /** A game with a free slot. */
  predicate IsOpen(games: map<string, Game>, name: string) {
    name in games && |games[name].players| < 2
  }

  predicate NoDuplicates(names: seq<string>) {
    forall i, j :: 0 <= i < j < |names| ==> names[i] != names[j]
  }

  /**
   * The open games in the given key order: exactly the listed names that
   * still have a free slot.
   */
  function OpenGames(games: map<string, Game>, order: seq<string>): (open: seq<string>)
    ensures forall name :: name in open <==> name in order && IsOpen(games, name)
    ensures NoDuplicates(order) ==> NoDuplicates(open)
    ensures |open| <= |order|
  {
    if order == [] then []
    else
      var last := order[|order| - 1];
      OpenGames(games, order[..|order| - 1]) + (if IsOpen(games, last) then [last] else [])
  }

  /** The same event sent to each player in turn. */
  function ToEach(players: seq<SocketId>, e: Event): (emits: seq<Emit>)
    ensures |emits| == |players|
    ensures forall i :: 0 <= i < |players| ==> emits[i] == Emit(Socket(players[i]), e)
  {
    if players == [] then []
    else ToEach(players[..|players| - 1], e) + [Emit(Socket(players[|players| - 1]), e)]
  }

  /** Array.prototype.indexOf: the first index holding x, or -1. */
  function IndexOf(s: seq<SocketId>, x: SocketId): (i: int)
    ensures -1 <= i < |s|
    ensures i == -1 <==> x !in s
    ensures 0 <= i ==> s[i] == x && forall j :: 0 <= j < i ==> s[j] != x
  {
    if s == [] then -1
    else if s[0] == x then 0
    else
      var i := IndexOf(s[1..], x);
      if i == -1 then -1 else i + 1
  }

  /** The colour of a socket in a players list: blue at index 0, red anywhere else. */
  function ColorFor(players: seq<SocketId>, sock: SocketId): (color: Color)
    ensures sock in players ==> (color == Blue <==> players[0] == sock)
    ensures sock !in players ==> color == Red
  {
    if IndexOf(players, sock) == 0 then Blue else Red
  }

  /** Joining after others does not change their colours. */
  lemma ColorForStable(players: seq<SocketId>, newcomer: SocketId, sock: SocketId)
    requires sock in players
    ensures ColorFor(players + [newcomer], sock) == ColorFor(players, sock)
  {
    assert (players + [newcomer])[0] == players[0];
  }

  /**
   * Arrival order decides the colour: the first socket is blue, a second,
   * different socket is red, and a socket admitted twice is blue both times.
   */
  lemma ArrivalOrderColors(first: SocketId, second: SocketId)
    ensures ColorFor([first], first) == Blue
    ensures first != second ==> ColorFor([first, second], second) == Red
    ensures ColorFor([first, first], first) == Blue
  {
  }

  /** The turn flip: blue becomes red, anything else becomes blue. */
  function Flip(c: Color): (d: Color)
    ensures d != c
  {
    if c == Blue then Red else Blue
  }

  lemma FlipTwiceRestores(c: Color)
    ensures Flip(Flip(c)) == c
  {
  }

  /**
   * The key `games[socket.gameName]` reads: a socket that never joined a
   * game has no gameName, and the property looked up is then "undefined".
   */
  function GameKey(gameOf: map<SocketId, string>, sock: SocketId): string {
    if sock in gameOf then gameOf[sock] else "undefined"
  }

  /** Every game is listed once in `order`, and nothing else is. */
  ghost predicate Listed(games: map<string, Game>, order: seq<string>) {
    (forall name :: name in games <==> name in order) && NoDuplicates(order)
  }

  /** No game ever holds more than two sockets. */
  predicate AtMostTwo(games: map<string, Game>) {
    forall name :: name in games ==> |games[name].players| <= 2
  }

  /** Socket s sits in the game it records, with the colour its position there gives. */
  predicate Seated(games: map<string, Game>, gameOf: map<SocketId, string>, colorOf: map<SocketId, Color>, s: SocketId)
    requires s in gameOf && s in colorOf
  {
    gameOf[s] in games && s in games[gameOf[s]].players &&
    colorOf[s] == ColorFor(games[gameOf[s]].players, s)
  }

  /** Every socket that recorded a game is seated in it. */
  predicate AllSeated(games: map<string, Game>, gameOf: map<SocketId, string>, colorOf: map<SocketId, Color>) {
    gameOf.Keys == colorOf.Keys &&
    forall s :: s in gameOf && s in colorOf ==> Seated(games, gameOf, colorOf, s)
  }

  /** The registry invariant, on the values of its fields. */
  ghost predicate Consistent(games: map<string, Game>, order: seq<string>,
                       gameOf: map<SocketId, string>, colorOf: map<SocketId, Color>) {
    Listed(games, order) && AtMostTwo(games) && AllSeated(games, gameOf, colorOf)
  }

  /** The game createNewGame stores under an unused name. */
  function NewGame(): (game: Game)
    ensures game.players == [] && game.currentTurnColor == Blue
  {
    Game([], Blue)
  }

  /** Adding a fresh game under an unused name keeps the invariant, and the game is open. */
  lemma CreateKeepsConsistent(games: map<string, Game>, order: seq<string>,
                              gameOf: map<SocketId, string>, colorOf: map<SocketId, Color>, name: string)
    requires Consistent(games, order, gameOf, colorOf) && name !in games
    ensures Consistent(games[name := NewGame()], order + [name], gameOf, colorOf)
    ensures IsOpen(games[name := NewGame()], name)
  {
    var games', order' := games[name := NewGame()], order + [name];
    forall i, j | 0 <= i < j < |order'|
      ensures order'[i] != order'[j]
    {
      if j == |order| {
        assert order[i] in games;
      }
    }
    forall s | s in gameOf && s in colorOf
      ensures Seated(games', gameOf, colorOf, s)
    {
      assert Seated(games, gameOf, colorOf, s);
      assert gameOf[s] != name;
    }
  }

  /**
   * Seating a socket at the end of an open game's players, and recording the
   * game and the colour its index gives, keeps the invariant: in particular
   * the players already seated keep their colours.
   */
  lemma JoinKeepsConsistent(games: map<string, Game>, order: seq<string>,
                            gameOf: map<SocketId, string>, colorOf: map<SocketId, Color>,
                            name: string, sock: SocketId)
    requires Consistent(games, order, gameOf, colorOf) && IsOpen(games, name)
    ensures
      var players := games[name].players + [sock];
      Consistent(games[name := games[name].(players := players)], order,
                 gameOf[sock := name], colorOf[sock := ColorFor(players, sock)])
  {
    var players := games[name].players + [sock];
    var games' := games[name := games[name].(players := players)];
    var gameOf', colorOf' := gameOf[sock := name], colorOf[sock := ColorFor(players, sock)];
    forall s | s in gameOf' && s in colorOf'
      ensures Seated(games', gameOf', colorOf', s)
    {
      if s != sock {
        assert Seated(games, gameOf, colorOf, s);
        if gameOf[s] == name {
          ColorForStable(games[name].players, sock, s);
        }
      }
    }
  }

  /** Changing only whose turn it is in one game keeps the invariant. */
  lemma TurnKeepsConsistent(games: map<string, Game>, order: seq<string>,
                            gameOf: map<SocketId, string>, colorOf: map<SocketId, Color>,
                            name: string, turn: Color)
    requires Consistent(games, order, gameOf, colorOf) && name in games
    ensures Consistent(games[name := games[name].(currentTurnColor := turn)], order, gameOf, colorOf)
  {
    var games' := games[name := games[name].(currentTurnColor := turn)];
    forall s | s in gameOf && s in colorOf
      ensures Seated(games', gameOf, colorOf, s)
    {
      assert Seated(games, gameOf, colorOf, s);
    }
  }

  class Registry {
    /** `games`, keyed by game name. */
    var games: map<string, Game>
    /** The keys of `games`, each once, in insertion order. */
    var order: seq<string>
    /** `socket.gameName` of every socket that joined a game. */
    var gameOf: map<SocketId, string>
    /** `socket.playerColor` of every socket that joined a game. */
    var colorOf: map<SocketId, Color>
    /** Every emit so far, oldest first. */
    var outbox: seq<Emit>

    /**
     * `order` lists each game once; no game holds more than two sockets; a
     * socket's recorded game exists and lists it, and its recorded colour is
     * the one its position in that game's players gives.
     */
    ghost predicate Valid()
      reads this
    {
      Consistent(games, order, gameOf, colorOf)
    }

    /** The server starts with no games and nothing sent. */
    constructor ()
      ensures Valid()
      ensures games == map[] && order == [] && gameOf == map[] && colorOf == map[] && outbox == []
    {
      games, order, gameOf, colorOf, outbox := map[], [], map[], map[], [];
    }

    /** getOpenGamesArray: walk the games and keep those with fewer than two players. */
    method GetOpenGamesArray() returns (openGameNames: seq<string>)
      requires Valid()
      ensures openGameNames == OpenGames(games, order)
      ensures forall name :: name in openGameNames <==> IsOpen(games, name)
      ensures NoDuplicates(openGameNames)
    {
      openGameNames := [];
      for i := 0 to |order|
        invariant openGameNames == OpenGames(games, order[..i])
      {
        var gameName := order[i];
        assert order[..i + 1][..i] == order[..i];
        if |games[gameName].players| < 2 {
          openGameNames := openGameNames + [gameName];
        }
      }
      assert order[..|order|] == order;
    }

    /** getListOfOpenGames: send the open games to the requesting socket. */
    method GetListOfOpenGames(sock: SocketId)
      requires Valid()
      modifies this`outbox
      ensures outbox == old(outbox) + [Emit(Socket(sock), DisplayListOfGames(OpenGames(games, order)))]
    {
      var openGameNames := GetOpenGamesArray();
      outbox := outbox + [Emit(Socket(sock), DisplayListOfGames(openGameNames))];
    }

    /** Send one event to each player of a game, in list order. */
    method EmitToEach(players: seq<SocketId>, e: Event)
      modifies this`outbox
      ensures outbox == old(outbox) + ToEach(players, e)
    {
      for i := 0 to |players|
        invariant outbox == old(outbox) + ToEach(players[..i], e)
      {
        assert players[..i + 1][..i] == players[..i];
        outbox := outbox + [Emit(Socket(players[i]), e)];
      }
      assert players[..|players|] == players;
    }

    /**
     * createNewGame: an unused name gets a fresh game with no players and
     * blue to move, every socket gets the new open-games list and the
     * requester gets gameCreated; a used name only sends failedToCreateGame.
     */
    method CreateNewGame(sock: SocketId, gameName: string)
      requires Valid()
      modifies this
      ensures Valid()
      ensures gameOf == old(gameOf) && colorOf == old(colorOf)
      ensures gameName !in old(games) ==>
        && games == old(games)[gameName := NewGame()]
        && order == old(order) + [gameName]
        && outbox == old(outbox) + [Emit(AllSockets, DisplayListOfGames(OpenGames(games, order))),
                                    Emit(Socket(sock), GameCreated)]
        && gameName in OpenGames(games, order)
      ensures gameName in old(games) ==>
        && games == old(games) && order == old(order)
        && outbox == old(outbox) + [Emit(Socket(sock), FailedToCreateGame)]
    {
      if gameName !in games {
        CreateKeepsConsistent(games, order, gameOf, colorOf, gameName);
        games := games[gameName := NewGame()];
        order := order + [gameName];
        var openGameNames := GetOpenGamesArray();
        outbox := outbox + [Emit(AllSockets, DisplayListOfGames(openGameNames))];
        outbox := outbox + [Emit(Socket(sock), GameCreated)];
      } else {
        outbox := outbox + [Emit(Socket(sock), FailedToCreateGame)];
      }
    }

    /**
     * addPlayerToGame: a game with a free slot takes the socket at the end of
     * its players, the socket records the game and the colour its index gives,
     * the requester hears playerAddedToGame, and the arrival that fills the
     * game sends gameStarted with the current turn to both players. A missing
     * or full game only sends failedToAddPlayer.
     */
    method AddPlayerToGame(sock: SocketId, gameName: string)
      requires Valid()
      modifies this
      ensures Valid()
      ensures order == old(order)
      ensures IsOpen(old(games), gameName) ==>
        var game := old(games)[gameName];
        var players := game.players + [sock];
        var color := ColorFor(players, sock);
        && games == old(games)[gameName := game.(players := players)]
        && gameOf == old(gameOf)[sock := gameName]
        && colorOf == old(colorOf)[sock := color]
        && outbox == old(outbox) + [Emit(Socket(sock), PlayerAddedToGame(color, gameName))]
                     + (if |players| == 2 then ToEach(players, GameStarted(game.currentTurnColor)) else [])
      ensures !IsOpen(old(games), gameName) ==>
        && games == old(games) && gameOf == old(gameOf) && colorOf == old(colorOf)
        && outbox == old(outbox) + [Emit(Socket(sock), FailedToAddPlayer)]
    {
      if gameName in games && |games[gameName].players| < 2 {
        var game := games[gameName];
        var players := game.players + [sock];
        JoinKeepsConsistent(games, order, gameOf, colorOf, gameName, sock);
        gameOf := gameOf[sock := gameName];
        games := games[gameName := game.(players := players)];
        var playerIndex := IndexOf(players, sock);
        var playerColor: Color := if playerIndex == 0 then Blue else Red;
        colorOf := colorOf[sock := playerColor];
        outbox := outbox + [Emit(Socket(sock), PlayerAddedToGame(playerColor, gameName))];
        if |players| == 2 {
          EmitToEach(players, GameStarted(game.currentTurnColor));
        }
      } else {
        outbox := outbox + [Emit(Socket(sock), FailedToAddPlayer)];
      }
    }

    /**
     * playerMove: flip the turn of the mover's game and relay the received
     * board, unchanged, with the new turn to every player; then send gameOver
     * to every player if isGameOver holds of that board. Neither the mover's
     * colour nor the board is checked. A socket without a game (and no game
     * named "undefined") makes the handler throw before anything changes.
     */
    method PlayerMove(sock: SocketId, gameState: seq<seq<Cell>>) returns (threw: bool)
      requires Valid() && IsGrid(gameState)
      modifies this
      ensures Valid()
      ensures order == old(order) && gameOf == old(gameOf) && colorOf == old(colorOf)
      ensures threw <==> GameKey(old(gameOf), sock) !in old(games)
      ensures threw ==> games == old(games) && outbox == old(outbox)
      ensures !threw ==>
        var key := GameKey(old(gameOf), sock);
        var game := old(games)[key];
        var newTurnColor := Flip(game.currentTurnColor);
        && games == old(games)[key := game.(currentTurnColor := newTurnColor)]
        && outbox == old(outbox) + ToEach(game.players, GameStateUpdate(newTurnColor, gameState))
                     + (if WinCheck.Terminal(gameState) then ToEach(game.players, GameOver) else [])
    {
      var key := GameKey(gameOf, sock);
      if key !in games {
        return true;
      }
      var game := games[key];
      var newTurnColor := Flip(game.currentTurnColor);
      TurnKeepsConsistent(games, order, gameOf, colorOf, key, newTurnColor);
      games := games[key := game.(currentTurnColor := newTurnColor)];
      EmitToEach(game.players, GameStateUpdate(newTurnColor, gameState));
      var over := WinCheck.IsGameOver(gameState);
      if over {
        EmitToEach(game.players, GameOver);
      }
      return false;
    }
  }

  /**
   * Seating as callers see it: a duplicate name is refused, the first two
   * sockets are blue and red, and a third is turned away.
   */
  method SeatingScenario()
  {
    var server := new Registry();
    server.CreateNewGame(1, "g1");
    assert server.games["g1"].players == [];
    server.CreateNewGame(2, "g1");
    assert server.games["g1"].players == [];
    server.AddPlayerToGame(1, "g1");
    assert server.games["g1"].players == [1];
    server.AddPlayerToGame(2, "g1");
    assert server.games["g1"].players == [1, 2];
    assert server.colorOf[1] == Blue && server.colorOf[2] == Red;
    server.AddPlayerToGame(3, "g1");
    assert 3 !in server.gameOf && server.games["g1"].players == [1, 2];
  }

  /**
   * Moves as callers see them: the red player may move twice in a row and
   * each move still flips the turn, because the server never compares the
   * mover's colour with the turn.
   */
  method MoveScenario(board: seq<seq<Cell>>)
    requires IsGrid(board)
  {
    var server := new Registry();
    server.CreateNewGame(1, "g1");
    server.AddPlayerToGame(1, "g1");
    server.AddPlayerToGame(2, "g1");
    assert server.colorOf[2] == Red && server.games["g1"].currentTurnColor == Blue;
    var threw := server.PlayerMove(2, board);
    assert !threw && server.games["g1"].currentTurnColor == Red;
    threw := server.PlayerMove(2, board);
    assert server.games["g1"].currentTurnColor == Blue;
  }
}
