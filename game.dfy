/**
 * The game lobby and move service (src/game/game.service.ts): the games
 * table, the player-slot table (`player_plays_game`), and the list of move
 * listeners. The labyrinth engine is an `Engine` value of abstract functions;
 * the calls made to move listeners are recorded, in order, in `notifications`.
 */
module Games {
  import opened Tables
  import opened Friendships
  import Users
  import Friends

  datatype GameVisibility = Public | FriendsOnly | Private

  datatype BotType = Player | WeakBot

  datatype CardsRatio = CardsRatio(lCards: real, streightCards: real, tCards: real)

  datatype TreasureCardChances = TreasureCardChances(
    lCardTreasureChance: real,
    streightCardTreasureChance: real,
    tCardTreasureChance: real,
    fixCardTreasureChance: real)

  datatype GameSetup = GameSetup(
    seed: string,
    boardWidth: int,
    boardHeight: int,
    cardsRatio: CardsRatio,
    treasureCardChances: TreasureCardChances)

  datatype CreateGameDto = CreateGameDto(visibility: GameVisibility, gameSetup: GameSetup)

  /** A row of the `game` table; `finished` and `started` default to false. */
  datatype Game = Game(
    id: Id,
    visibility: GameVisibility,
    startTime: Timestamp,
    gameState: string,
    gameSetup: string,
    ownerUserID: Id,
    finished: bool,
    started: bool)

  /** A row of `player_plays_game`: one seat of one game; a bot seat has no user. */
  datatype PlayerPlaysGame = PlayerPlaysGame(
    id: Id,
    botType: BotType,
    gameID: Id,
    userID: Option<Id>,
    playerIndex: nat,
    ready: bool)

  datatype Heading = North | East | South | West

  datatype ShiftPosition = ShiftPosition(heading: Heading, index: int)

  datatype BoardPosition = BoardPosition(x: int, y: int)

  /** The engine's treasure; only its id matters here. */
  datatype Treasure = Treasure(id: int)

  /** The engine's move: who moves, rotation, shift, path, and the treasure being collected. */
  datatype LabyrinthMove = LabyrinthMove(
    playerIndex: int,
    rotateBeforeShift: int,
    shiftPosition: ShiftPosition,
    from: BoardPosition,
    to: BoardPosition,
    currentTreasure: Option<Treasure>)

  /** What a client sends for a move; `collectedTreasure` may be null. */
  datatype MoveDto = MoveDto(
    playerIndex: int,
    rotateBeforeShift: int,
    shiftPosition: ShiftPosition,
    from: BoardPosition,
    to: BoardPosition,
    collectedTreasure: Option<int>)

  /**
   * The labyrinth-game-logic engine, as functions over its game value `G`.
   * `buildFromSetup` is `None` where the engine throws; `move` answers whether
   * the move was legal together with the game after it.
   */
  datatype Engine<!G> = Engine(
    buildFromSetup: GameSetup -> Option<G>,
    buildFromString: string -> G,
    stringify: G -> string,
    currentTreasure: (G, nat) -> Option<Treasure>,
    move: (G, LabyrinthMove) -> (bool, G))

  /** The service's exceptions; each comment is the message it carries. */
  datatype GameError =
    | InvalidSetup      // 'invalid setup'
    | GameDoesNotExist  // 'game does not exist'
    | AlreadyPlaying    // 'already playing'
    | UserDoesNotExist  // 'user does not exist'
    | InvalidMove       // 'invalid move'
    | GameNotStarted    // 'the game did not start yet'
    | NotPermission     // 'no permission'

  /** Move listeners are compared by identity; an id stands for the function. */
  type ListenerId = nat

  /** One call `listener(gameID, move)`. */
  datatype Notification = Notification(listener: ListenerId, gameID: Id, move: LabyrinthMove)

  /** How `move` ends: with an error, or with the saved row and the move the listeners get. */
  datatype MoveResult =
    | Rejected(error: GameError)
    | Accepted(row: Game, move: LabyrinthMove)

  /** The calls made when `listeners` are told about `move`, in registration order. */
  function Notify(listeners: seq<ListenerId>, gameID: Id, move: LabyrinthMove): (r: seq<Notification>)
    ensures |r| == |listeners|
    ensures forall i :: 0 <= i < |r| ==> r[i] == Notification(listeners[i], gameID, move)
  {
    seq(|listeners|, i requires 0 <= i < |listeners| => Notification(listeners[i], gameID, move))
  }

  /** A listener that was registered at most once is not called once it is removed. */
  lemma RemovedListenerNotNotified(listeners: seq<ListenerId>, l: ListenerId, gameID: Id, move: LabyrinthMove)
    requires multiset(listeners)[l] <= 1
    ensures forall n :: n in Notify(RemoveFirst(listeners, l), gameID, move) ==> n.listener != l
  {
    var rest := RemoveFirst(listeners, l);
    if l in listeners {
      RemoveFirstPresent(listeners, l);
      assert multiset(rest)[l] == 0;
    } else {
      RemoveFirstAbsent(listeners, l);
    }
    assert l !in rest;
    forall n | n in Notify(rest, gameID, move)
      ensures n.listener != l
    {
      var i :| 0 <= i < |rest| && Notify(rest, gameID, move)[i] == n;
      assert rest[i] in rest;
    }
  }

  /** The seats of one game are numbered 0, 1, … in table order. */
  ghost predicate Dense(players: seq<PlayerPlaysGame>)
  {
    forall i :: 0 <= i < |players| ==> players[i].playerIndex == i
  }

  /** The seats of `gameID`, in table order. */
  function PlayersOf(slots: seq<PlayerPlaysGame>, gameID: Id): (r: seq<PlayerPlaysGame>)
    ensures forall i :: 0 <= i < |r| ==> r[i] in slots && r[i].gameID == gameID
    ensures forall s :: s in slots && s.gameID == gameID ==> s in r
  {
    Filter(slots, (s: PlayerPlaysGame) => s.gameID == gameID)
  }

  /** Game keys identify rows and are below the next value of the key counter. */
  ghost predicate GamesValid(games: seq<Game>, nextGameId: Id)
  {
    && (forall i :: 0 <= i < |games| ==> games[i].id < nextGameId)
    && (forall a, b :: a in games && b in games && a.id == b.id ==> a == b)
  }

  /**
   * Seat keys identify rows and are below the next value of the key counter,
   * every seat names a game key already handed out, and each game's seats
   * are numbered 0, 1, … in table order.
   */
  ghost predicate SlotsValid(slots: seq<PlayerPlaysGame>, nextSlotId: Id, nextGameId: Id)
  {
    && (forall i :: 0 <= i < |slots| ==> slots[i].id < nextSlotId && slots[i].gameID < nextGameId)
    && (forall a, b :: a in slots && b in slots && a.id == b.id ==> a == b)
    && (forall g :: Dense(PlayersOf(slots, g)))
  }

  /** Both tables of the game service are valid under their key counters. */
  ghost predicate ServiceValid(games: seq<Game>, slots: seq<PlayerPlaysGame>, nextGameId: Id, nextSlotId: Id)
  {
    GamesValid(games, nextGameId) && SlotsValid(slots, nextSlotId, nextGameId)
  }

  /** Inserting a game under the next key keeps the games table valid. */
  lemma InsertGameKeepsValid(games: seq<Game>, nextGameId: Id, game: Game)
    requires GamesValid(games, nextGameId) && game.id == nextGameId
    ensures GamesValid(games + [game], nextGameId + 1)
    ensures FindFirst(games + [game], (g: Game) => g.id == game.id) == Some(game)
  {
    var after := games + [game];
    forall a, b | a in after && b in after && a.id == b.id
      ensures a == b
    {
      if a != game && b != game {
        assert a in games && b in games;
      }
    }
    assert after[|games|] == game;
  }

  /** A newly handed-out game key has no seats yet. */
  lemma NewGameHasNoSeats(slots: seq<PlayerPlaysGame>, nextSlotId: Id, nextGameId: Id)
    requires SlotsValid(slots, nextSlotId, nextGameId)
    ensures PlayersOf(slots, nextGameId) == []
    ensures SlotsValid(slots, nextSlotId, nextGameId + 1)
  {
    FilterNone(slots, (s: PlayerPlaysGame) => s.gameID == nextGameId);
  }

  /**
   * Seating a player under the next key at index `|existing seats|` keeps
   * the seats table valid, so sequential joins number a game's seats 0, 1, ….
   */
  lemma {:induction false} AppendSeatKeepsValid(slots: seq<PlayerPlaysGame>, nextSlotId: Id, nextGameId: Id, seat: PlayerPlaysGame)
    requires SlotsValid(slots, nextSlotId, nextGameId)
    requires seat.id == nextSlotId && seat.gameID < nextGameId
    requires seat.playerIndex == |PlayersOf(slots, seat.gameID)|
    ensures SlotsValid(slots + [seat], nextSlotId + 1, nextGameId)
    ensures PlayersOf(slots + [seat], seat.gameID) == PlayersOf(slots, seat.gameID) + [seat]
  {
    var after := slots + [seat];
    forall g
      ensures PlayersOf(after, g) == PlayersOf(slots, g) + (if seat.gameID == g then [seat] else [])
    {
      FilterAppend(slots, seat, (s: PlayerPlaysGame) => s.gameID == g);
    }
    forall g
      ensures Dense(PlayersOf(after, g))
    {
      assert Dense(PlayersOf(slots, g));
    }
    forall a, b | a in after && b in after && a.id == b.id
      ensures a == b
    {
      if a != seat && b != seat {
        assert a in slots && b in slots;
      }
    }
  }

  /**
   * The ALREADY_PLAYING test as written: some existing seat's own row key
   * equals the user id.
   */
  predicate SeatKeyIs(players: seq<PlayerPlaysGame>, userID: Id)
  {
    exists i :: 0 <= i < |players| && players[i].id == userID
  }

  /** The loop of `addUserToGame` over the existing seats, stopping at the first match. */
  method ScanSeatKeys(players: seq<PlayerPlaysGame>, userID: Id) returns (taken: bool)
    ensures taken <==> SeatKeyIs(players, userID)
  {
    for i := 0 to |players|
      invariant forall j :: 0 <= j < i ==> players[j].id != userID
    {
      if players[i].id == userID {
        return true;
      }
    }
    return false;
  }

  /** The ALREADY_PLAYING test as intended: the user already holds one of the seats. */
  predicate AlreadySeated(players: seq<PlayerPlaysGame>, userID: Id)
  {
    exists i :: 0 <= i < |players| && players[i].userID == Some(userID)
  }

  /**
   * As written, a seated user is let in again, and a user with no seat is
   * refused when a seat's key happens to equal their id.
   */
  lemma AlreadyPlayingComparesSeatKeys()
    ensures var seat := PlayerPlaysGame(5, Player, 0, Some(7), 0, false);
      && !SeatKeyIs([seat], 7) && AlreadySeated([seat], 7)
      && SeatKeyIs([seat], 5) && !AlreadySeated([seat], 5)
  {
    var seat := PlayerPlaysGame(5, Player, 0, Some(7), 0, false);
    assert [seat][0] == seat;
  }

  /**
   * The outcome of `addUserToGame` with the intended ALREADY_PLAYING test,
   * given the user row, the game row and the game's existing seats.
   */
  function IntendedJoin(user: Option<Users.User>, game: Option<Game>, players: seq<PlayerPlaysGame>, userID: Id): (r: Outcome<GameError>)
    ensures user.None? ==> r == Fail(UserDoesNotExist)
    ensures user.Some? && game.None? ==> r == Fail(GameDoesNotExist)
    ensures user.Some? && game.Some? && AlreadySeated(players, userID) ==> r == Fail(AlreadyPlaying)
    ensures r == Pass <==> user.Some? && game.Some? && !AlreadySeated(players, userID)
  {
    if user.None? then Fail(UserDoesNotExist)
    else if game.None? then Fail(GameDoesNotExist)
    else if AlreadySeated(players, userID) then Fail(AlreadyPlaying)
    else Pass
  }

  /** No user holds two seats in the same game. */
  ghost predicate OneSeatPerUser(slots: seq<PlayerPlaysGame>)
  {
    forall i, j :: 0 <= i < j < |slots| && slots[i].gameID == slots[j].gameID && slots[i].userID.Some?
      ==> slots[i].userID != slots[j].userID
  }

  /** With the intended test, once a user holds a seat the same join is refused. */
  lemma SeatedUserRefused(slots: seq<PlayerPlaysGame>, seat: PlayerPlaysGame, user: Option<Users.User>, game: Option<Game>, userID: Id)
    requires user.Some? && game.Some?
    requires seat.userID == Some(userID)
    ensures IntendedJoin(user, game, PlayersOf(slots + [seat], seat.gameID), userID) == Fail(AlreadyPlaying)
  {
    var players := PlayersOf(slots + [seat], seat.gameID);
    assert (slots + [seat])[|slots|] == seat;
    assert seat in players;
    var k :| 0 <= k < |players| && players[k] == seat;
  }

  /** An intended join that succeeds keeps every user to at most one seat per game. */
  lemma IntendedJoinKeepsOneSeat(slots: seq<PlayerPlaysGame>, seat: PlayerPlaysGame, user: Option<Users.User>, game: Option<Game>, userID: Id)
    requires OneSeatPerUser(slots)
    requires seat.userID == Some(userID)
    requires IntendedJoin(user, game, PlayersOf(slots, seat.gameID), userID) == Pass
    ensures OneSeatPerUser(slots + [seat])
  {
    var after := slots + [seat];
    var players := PlayersOf(slots, seat.gameID);
    forall i, j | 0 <= i < j < |after| && after[i].gameID == after[j].gameID && after[i].userID.Some?
      ensures after[i].userID != after[j].userID
    {
      if j == |slots| {
        assert after[i] == slots[i] && slots[i] in slots;
        assert slots[i] in players;
        var k :| 0 <= k < |players| && players[k] == slots[i];
        assert players[k].userID != Some(userID);
      } else {
        assert after[i] == slots[i] && after[j] == slots[j];
      }
    }
  }

  /** A table holding one seat lists that seat for its game. */
  lemma SingleSeatPlayers(seat: PlayerPlaysGame)
    ensures PlayersOf([seat], seat.gameID) == [seat]
  {
    FilterAll([seat], (s: PlayerPlaysGame) => s.gameID == seat.gameID);
  }

  /**
   * The check as written lets a seated user join again whenever their seat's
   * key differs from their id, and the table then holds two seats of that
   * user in one game.
   */
  lemma DoubleSeatAsWritten(first: PlayerPlaysGame, second: PlayerPlaysGame, userID: Id)
    requires first.userID == Some(userID) && first.id != userID
    requires second.gameID == first.gameID && second.userID == Some(userID)
    ensures OneSeatPerUser([first])
    ensures !SeatKeyIs(PlayersOf([first], first.gameID), userID)
    ensures !OneSeatPerUser([first] + [second])
  {
    SingleSeatPlayers(first);
    var after := [first] + [second];
    assert after[0] == first && after[1] == second;
  }

  /** `f` is a friendship of `userID` whose other member is `friendID`. */
  predicate Befriends(f: Friendship, userID: Id, friendID: Id)
  {
    (f.usera == userID || f.userb == userID) && f.GetFriendID(userID) == friendID
  }

  /**
   * `currentTreasure?.id !== collectedTreasure` rejects the move; it lets it
   * through only when the player has a current treasure and the claim is its id.
   */
  predicate ClaimMatches(current: Option<Treasure>, claim: Option<int>)
  {
    current.Some? && claim.Some? && claim.value == current.value.id
  }

  /** `update({ id: row.id }, row)`: every row with that key is overwritten. */
  function Saved(games: seq<Game>, row: Game): (r: seq<Game>)
    ensures |r| == |games|
    ensures forall i :: 0 <= i < |games| ==> r[i] == if games[i].id == row.id then row else games[i]
  {
    UpdateWhere(games, (g: Game) => g.id == row.id, row)
  }

  class GameService<!G> {
    var games: seq<Game>
    var slots: seq<PlayerPlaysGame>
    var nextGameId: Id
    var nextSlotId: Id
    var moveListeners: seq<ListenerId>
    var notifications: seq<Notification>
    const engine: Engine<G>
    /** `JSON.stringify`, treated as an opaque encoding of the create request. */
    const encodeSetup: CreateGameDto -> string
    const usersService: Users.UsersService
    const friendsService: Friends.FriendsService

    /**
     * Keys identify rows and are below the next values of their key counters, every
     * seat belongs to a game key already handed out, and each game's seats
     * are numbered 0, 1, … in table order.
     */
    ghost predicate Valid()
      reads this`games, this`slots, this`nextGameId, this`nextSlotId
    {
      ServiceValid(games, slots, nextGameId, nextSlotId)
    }

    constructor (engine: Engine<G>, encodeSetup: CreateGameDto -> string,
                 usersService: Users.UsersService, friendsService: Friends.FriendsService)
      ensures Valid()
      ensures games == [] && slots == [] && moveListeners == [] && notifications == []
      ensures this.engine == engine && this.encodeSetup == encodeSetup
      ensures this.usersService == usersService && this.friendsService == friendsService
    {
      games, slots := [], [];
      nextGameId, nextSlotId := 0, 0;
      moveListeners, notifications := [], [];
      this.engine := engine;
      this.encodeSetup := encodeSetup;
      this.usersService := usersService;
      this.friendsService := friendsService;
    }

    method AddMoveListener(listener: ListenerId)
      modifies this`moveListeners
      ensures moveListeners == old(moveListeners) + [listener]
    {
      moveListeners := moveListeners + [listener];
    }

    /** Drops the first registration of `listener`; an unknown listener is ignored. */
    method RemoveMoveListener(listener: ListenerId)
      modifies this`moveListeners
      ensures moveListeners == RemoveFirst(old(moveListeners), listener)
      ensures listener !in old(moveListeners) ==> moveListeners == old(moveListeners)
      ensures listener in old(moveListeners) ==>
        multiset(moveListeners) == multiset(old(moveListeners)) - multiset{listener}
    {
      var index := IndexOf(moveListeners, listener);
      if index != -1 {
        RemoveFirstPresent(moveListeners, listener);
        moveListeners := moveListeners[..index] + moveListeners[index + 1..];
      }
    }

    /** The game with key `id`. */
    function FindOne(id: Id): (r: Option<Game>)
      reads this`games
      ensures r.Some? ==> r.value in games && r.value.id == id
      ensures r.None? <==> forall i :: 0 <= i < |games| ==> games[i].id != id
    {
      FindFirst(games, (g: Game) => g.id == id)
    }

    /** The games `ownerUserID` owns, in table order. */
    function FindByUser(ownerUserID: Id): (r: seq<Game>)
      reads this`games
      ensures forall i :: 0 <= i < |r| ==> r[i] in games && r[i].ownerUserID == ownerUserID
      ensures forall g :: g in games && g.ownerUserID == ownerUserID ==> g in r
    {
      Filter(games, (g: Game) => g.ownerUserID == ownerUserID)
    }

    /** The seats of `gameID`, in table order. */
    function FindGamePlayers(gameID: Id): (r: seq<PlayerPlaysGame>)
      reads this`slots
      ensures forall i :: 0 <= i < |r| ==> r[i] in slots && r[i].gameID == gameID
      ensures forall s :: s in slots && s.gameID == gameID ==> s in r
      ensures Valid() ==> forall i :: 0 <= i < |r| ==> r[i].playerIndex == i
    {
      PlayersOf(slots, gameID)
    }

    /** The seat `userID` holds in `gameID`, the first one if there are several. */
    function FindSeat(gameID: Id, userID: Id): (r: Option<PlayerPlaysGame>)
      reads this`slots
      ensures r.Some? ==> r.value in slots && r.value.gameID == gameID && r.value.userID == Some(userID)
      ensures r.None? <==> forall i :: 0 <= i < |slots| ==> !(slots[i].gameID == gameID && slots[i].userID == Some(userID))
    {
      FindFirst(slots, (s: PlayerPlaysGame) => s.gameID == gameID && s.userID == Some(userID))
    }

    /** The seat `addUserToGame` inserts: a human player at the next free index, not ready. */
    function NewSeat(gameID: Id, userID: Id): (s: PlayerPlaysGame)
      reads this`slots, this`nextSlotId
      ensures s.id == nextSlotId && s.botType == Player && s.gameID == gameID
      ensures s.userID == Some(userID) && s.playerIndex == |FindGamePlayers(gameID)| && !s.ready
    {
      PlayerPlaysGame(nextSlotId, Player, gameID, Some(userID), |FindGamePlayers(gameID)|, false)
    }

    /**
     * Seats `userID` in `gameID`. The checks run in order: the user exists,
     * the game exists, no seat's key equals the user id (as written).
     */
    method AddUserToGame(userID: Id, gameID: Id) returns (r: Outcome<GameError>)
      requires Valid()
      modifies this`slots, this`nextSlotId
      ensures Valid()
      ensures old(usersService.FindById(userID)).None? ==> r == Fail(UserDoesNotExist)
      ensures old(usersService.FindById(userID)).Some? && old(FindOne(gameID)).None? ==> r == Fail(GameDoesNotExist)
      ensures (old(usersService.FindById(userID)).Some? && old(FindOne(gameID)).Some?
               && old(SeatKeyIs(FindGamePlayers(gameID), userID))) ==> r == Fail(AlreadyPlaying)
      ensures r.Fail? ==> slots == old(slots) && nextSlotId == old(nextSlotId)
      ensures r.Pass? <==> (old(usersService.FindById(userID)).Some? && old(FindOne(gameID)).Some?
                            && !old(SeatKeyIs(FindGamePlayers(gameID), userID)))
      ensures r.Pass? ==> slots == old(slots) + [old(NewSeat(gameID, userID))]
      ensures r.Pass? ==> FindGamePlayers(gameID) == old(FindGamePlayers(gameID)) + [old(NewSeat(gameID, userID))]
    {
      var user := usersService.FindById(userID);
      if user.None? {
        return Fail(UserDoesNotExist);
      }
      var game := FindOne(gameID);
      if game.None? {
        return Fail(GameDoesNotExist);
      }
      var existingPlayers := FindGamePlayers(game.value.id);
      var taken := ScanSeatKeys(existingPlayers, userID);
      if taken {
        return Fail(AlreadyPlaying);
      }
      var userPlaysGame := PlayerPlaysGame(nextSlotId, Player, gameID, Some(userID), |existingPlayers|, false);
      AppendSeatKeepsValid(slots, nextSlotId, nextGameId, userPlaysGame);
      slots := slots + [userPlaysGame];
      nextSlotId := nextSlotId + 1;
      r := Pass;
    }

    /**
     * Creates a game and seats its owner. A setup the engine rejects changes
     * nothing; otherwise the game row stays even when seating the owner fails.
     */
    method Create(ownerUser: Id, dto: CreateGameDto, now: Timestamp) returns (r: Outcome<GameError>)
      requires Valid()
      modifies this`games, this`nextGameId, this`slots, this`nextSlotId
      ensures Valid()
      ensures engine.buildFromSetup(dto.gameSetup).None? ==>
        r == Fail(InvalidSetup) && games == old(games) && slots == old(slots)
      ensures engine.buildFromSetup(dto.gameSetup).Some? ==>
        games == old(games) + [Game(old(nextGameId), dto.visibility, now,
                                    engine.stringify(engine.buildFromSetup(dto.gameSetup).value),
                                    encodeSetup(dto), ownerUser, false, false)]
      ensures (engine.buildFromSetup(dto.gameSetup).Some? && old(usersService.FindById(ownerUser)).Some?) ==>
        r == Pass && slots == old(slots) + [PlayerPlaysGame(old(nextSlotId), Player, old(nextGameId), Some(ownerUser), 0, false)]
      ensures (engine.buildFromSetup(dto.gameSetup).Some? && old(usersService.FindById(ownerUser)).None?) ==>
        r == Fail(UserDoesNotExist) && slots == old(slots)
    {
      var built := engine.buildFromSetup(dto.gameSetup);
      if built.None? {
        return Fail(InvalidSetup);
      }
      var dbGame := Game(nextGameId, dto.visibility, now, engine.stringify(built.value),
                         encodeSetup(dto), ownerUser, false, false);
      InsertGame(dbGame);
      r := AddUserToGame(ownerUser, dbGame.id);
    }

    /** `insert` on the games table, under the next key; the new game has no seats. */
    method InsertGame(game: Game)
      requires Valid() && game.id == nextGameId
      modifies this`games, this`nextGameId
      ensures Valid()
      ensures games == old(games) + [game] && nextGameId == old(nextGameId) + 1
      ensures FindOne(game.id) == Some(game) && FindGamePlayers(game.id) == []
    {
      InsertGameKeepsValid(games, nextGameId, game);
      NewGameHasNoSeats(slots, nextSlotId, nextGameId);
      games := games + [game];
      nextGameId := nextGameId + 1;
    }

    /** Only the owner may start a game; starting sets `started` and nothing else. */
    method StartGame(byUserID: Id, gameID: Id) returns (r: Outcome<GameError>)
      requires Valid()
      modifies this`games
      ensures Valid()
      ensures old(FindOne(gameID)).None? ==> r == Fail(GameDoesNotExist)
      ensures old(FindOne(gameID)).Some? && old(FindOne(gameID)).value.ownerUserID != byUserID ==> r == Fail(NotPermission)
      ensures r.Fail? ==> games == old(games)
      ensures r.Pass? <==> old(FindOne(gameID)).Some? && old(FindOne(gameID)).value.ownerUserID == byUserID
      ensures r.Pass? ==> games == Saved(old(games), old(FindOne(gameID)).value.(started := true))
      ensures r.Pass? ==> FindOne(gameID) == Some(old(FindOne(gameID)).value.(started := true))
    {
      var game := FindOne(gameID);
      if game.None? {
        return Fail(GameDoesNotExist);
      }
      if game.value.ownerUserID != byUserID {
        return Fail(NotPermission);
      }
      var started := game.value.(started := true);
      SaveGame(started);
      r := Pass;
    }

    /** What `move` does with the current tables, step by step as the source checks. */
    function MoveOutcome(userID: Id, gameID: Id, dto: MoveDto): (r: MoveResult)
      reads this`games, this`slots
      ensures r.Accepted? ==> r.row.id == gameID && r.move.currentTreasure.Some?
      ensures r.Accepted? ==> FindSeat(gameID, userID).Some? && FindOne(gameID).Some?
      ensures r.Accepted? ==>
        var seat := FindSeat(gameID, userID).value;
        var game := engine.buildFromString(FindOne(gameID).value.gameState);
        r.move == LabyrinthMove(seat.playerIndex, dto.rotateBeforeShift, dto.shiftPosition, dto.from, dto.to,
                                engine.currentTreasure(game, seat.playerIndex))
    {
      var seat := FindSeat(gameID, userID);
      if seat.None? then Rejected(GameDoesNotExist)
      else
        var dbGame := FindOne(gameID);
        if dbGame.None? then Rejected(GameDoesNotExist)
        else if !dbGame.value.started then Rejected(GameNotStarted)
        else
          var game := engine.buildFromString(dbGame.value.gameState);
          var currentTreasure := engine.currentTreasure(game, seat.value.playerIndex);
          if !ClaimMatches(currentTreasure, dto.collectedTreasure) then Rejected(InvalidMove)
          else
            var move := LabyrinthMove(seat.value.playerIndex, dto.rotateBeforeShift, dto.shiftPosition,
                             dto.from, dto.to, currentTreasure);
            var (moveWasValid, next) := engine.move(game, move);
            if !moveWasValid then Rejected(InvalidMove)
            else Accepted(dbGame.value.(gameState := engine.stringify(next)), move)
    }

    /**
     * Plays one move of `userID` in `gameID`; on success saves the new engine
     * state and then calls every listener in registration order.
     */
    method Move(userID: Id, gameID: Id, dto: MoveDto) returns (r: Outcome<GameError>)
      requires Valid()
      modifies this`games, this`notifications
      ensures Valid()
      ensures old(MoveOutcome(userID, gameID, dto)).Rejected? ==>
        && r == Fail(old(MoveOutcome(userID, gameID, dto)).error)
        && games == old(games) && notifications == old(notifications)
      ensures old(MoveOutcome(userID, gameID, dto)).Accepted? ==>
        && r == Pass
        && games == Saved(old(games), old(MoveOutcome(userID, gameID, dto)).row)
        && notifications == old(notifications) + Notify(moveListeners, gameID, old(MoveOutcome(userID, gameID, dto)).move)
    {
      ghost var outcome := MoveOutcome(userID, gameID, dto);
      var gamePlayer := FindSeat(gameID, userID);
      if gamePlayer.None? {
        assert outcome == Rejected(GameDoesNotExist);
        return Fail(GameDoesNotExist);
      }
      var dbGame := FindOne(gameID);
      if dbGame.None? {
        assert outcome == Rejected(GameDoesNotExist);
        return Fail(GameDoesNotExist);
      }
      if !dbGame.value.started {
        assert outcome == Rejected(GameNotStarted);
        return Fail(GameNotStarted);
      }
      var game := engine.buildFromString(dbGame.value.gameState);
      var currentTreasure := engine.currentTreasure(game, gamePlayer.value.playerIndex);
      if !ClaimMatches(currentTreasure, dto.collectedTreasure) {
        assert outcome == Rejected(InvalidMove);
        return Fail(InvalidMove);
      }
      var move := LabyrinthMove(gamePlayer.value.playerIndex, dto.rotateBeforeShift, dto.shiftPosition,
                                dto.from, dto.to, currentTreasure);
      var moved := engine.move(game, move);
      if !moved.0 {
        assert outcome == Rejected(InvalidMove);
        return Fail(InvalidMove);
      }
      var row := dbGame.value.(gameState := engine.stringify(moved.1));
      assert outcome == Accepted(row, move);
      SaveGame(row);
      NotifyListeners(row.id, move);
      r := Pass;
    }

    /** `update({ id: row.id }, row)` on the games table, for a key that is there. */
    method SaveGame(row: Game)
      requires Valid() && FindOne(row.id).Some?
      modifies this`games
      ensures Valid()
      ensures games == Saved(old(games), row)
      ensures FindOne(row.id) == Some(row)
    {
      SavedKeepsValid(games, nextGameId, row);
      SavedIsFound(games, row);
      var saved := Saved(games, row);
      assert ServiceValid(saved, slots, nextGameId, nextSlotId);
      games := saved;
    }

    /** Calls every move listener once, in registration order. */
    method NotifyListeners(gameID: Id, move: LabyrinthMove)
      requires Valid()
      modifies this`notifications
      ensures Valid()
      ensures notifications == old(notifications) + Notify(moveListeners, gameID, move)
    {
      for i := 0 to |moveListeners|
        invariant notifications == old(notifications) + Notify(moveListeners[..i], gameID, move)
      {
        assert Notify(moveListeners[..i + 1], gameID, move)
          == Notify(moveListeners[..i], gameID, move) + [Notification(moveListeners[i], gameID, move)];
        notifications := notifications + [Notification(moveListeners[i], gameID, move)];
      }
      assert moveListeners[..|moveListeners|] == moveListeners;
    }

    /** A move that is accepted got through every check, with the seat's own index. */
    lemma AcceptedMoveChecks(userID: Id, gameID: Id, dto: MoveDto)
      requires MoveOutcome(userID, gameID, dto).Accepted?
      ensures FindSeat(gameID, userID).Some? && FindOne(gameID).Some? && FindOne(gameID).value.started
      ensures var o := MoveOutcome(userID, gameID, dto);
        var seat := FindSeat(gameID, userID).value;
        var game := engine.buildFromString(FindOne(gameID).value.gameState);
        && o.move.playerIndex == seat.playerIndex
        && ClaimMatches(engine.currentTreasure(game, seat.playerIndex), dto.collectedTreasure)
        && engine.move(game, o.move).0
        && o.row == FindOne(gameID).value.(gameState := engine.stringify(engine.move(game, o.move).1))
    {
    }

    /** The error cases of `move`, in the order they are checked. */
    lemma MoveErrors(userID: Id, gameID: Id, dto: MoveDto)
      ensures FindSeat(gameID, userID).None? ==> MoveOutcome(userID, gameID, dto) == Rejected(GameDoesNotExist)
      ensures FindSeat(gameID, userID).Some? && FindOne(gameID).None? ==>
        MoveOutcome(userID, gameID, dto) == Rejected(GameDoesNotExist)
      ensures (FindSeat(gameID, userID).Some? && FindOne(gameID).Some? && !FindOne(gameID).value.started) ==>
        MoveOutcome(userID, gameID, dto) == Rejected(GameNotStarted)
      ensures (FindSeat(gameID, userID).Some? && FindOne(gameID).Some? && FindOne(gameID).value.started
               && !ClaimMatches(engine.currentTreasure(engine.buildFromString(FindOne(gameID).value.gameState),
                                                       FindSeat(gameID, userID).value.playerIndex),
                                dto.collectedTreasure)) ==>
        MoveOutcome(userID, gameID, dto) == Rejected(InvalidMove)
      ensures var seat := FindSeat(gameID, userID);
        var dbGame := FindOne(gameID);
        (seat.Some? && dbGame.Some? && dbGame.value.started &&
         var game := engine.buildFromString(dbGame.value.gameState);
         var current := engine.currentTreasure(game, seat.value.playerIndex);
         ClaimMatches(current, dto.collectedTreasure) &&
         !engine.move(game, LabyrinthMove(seat.value.playerIndex, dto.rotateBeforeShift, dto.shiftPosition,
                                          dto.from, dto.to, current)).0) ==>
        MoveOutcome(userID, gameID, dto) == Rejected(InvalidMove)
    {
    }

    /**
     * A move that passes every check and that the engine accepts is accepted:
     * the stored row gets the engine's new state, and the move handed to the
     * listeners is the request's move played with the seat's index and the
     * current treasure.
     */
    lemma ValidMoveAccepted(userID: Id, gameID: Id, dto: MoveDto)
      requires FindSeat(gameID, userID).Some? && FindOne(gameID).Some? && FindOne(gameID).value.started
      requires var seat := FindSeat(gameID, userID).value;
        var game := engine.buildFromString(FindOne(gameID).value.gameState);
        var current := engine.currentTreasure(game, seat.playerIndex);
        && ClaimMatches(current, dto.collectedTreasure)
        && engine.move(game, LabyrinthMove(seat.playerIndex, dto.rotateBeforeShift, dto.shiftPosition, dto.from, dto.to, current)).0
      ensures var seat := FindSeat(gameID, userID).value;
        var game := engine.buildFromString(FindOne(gameID).value.gameState);
        var current := engine.currentTreasure(game, seat.playerIndex);
        var move := LabyrinthMove(seat.playerIndex, dto.rotateBeforeShift, dto.shiftPosition, dto.from, dto.to, current);
        MoveOutcome(userID, gameID, dto)
          == Accepted(FindOne(gameID).value.(gameState := engine.stringify(engine.move(game, move).1)), move)
    {
    }

    /** A move whose claim is `null` is never accepted. */
    lemma NullClaimRejected(userID: Id, gameID: Id, dto: MoveDto)
      requires dto.collectedTreasure.None?
      ensures MoveOutcome(userID, gameID, dto).Rejected?
    {
    }

    /** The player index in the request plays no part in a move. */
    lemma MoveIgnoresRequestedIndex(userID: Id, gameID: Id, dto: MoveDto, playerIndex: int)
      ensures MoveOutcome(userID, gameID, dto) == MoveOutcome(userID, gameID, dto.(playerIndex := playerIndex))
    {
    }

    /** An accepted move rewrites only the game state of its own game row. */
    lemma AcceptedMoveOnlyChangesState(userID: Id, gameID: Id, dto: MoveDto)
      requires Valid()
      requires MoveOutcome(userID, gameID, dto).Accepted?
      ensures var row := MoveOutcome(userID, gameID, dto).row;
        var saved := Saved(games, row);
        && FindOne(gameID).value == row.(gameState := FindOne(gameID).value.gameState)
        && forall i :: 0 <= i < |games| ==> (saved[i] == games[i] <==> games[i].id != gameID || games[i] == row)
    {
    }

    /** The unstarted public games that `forUserID` does not own, in table order. */
    function PublicGames(forUserID: Id): (r: seq<Game>)
      reads this`games
      ensures forall g :: g in r <==> g in games && g.visibility == Public && g.ownerUserID != forUserID && !g.started
    {
      Filter(games, (g: Game) => g.visibility == Public && g.ownerUserID != forUserID && !g.started)
    }

    /** The unstarted friends-only games that `friendID` owns. */
    function FriendGames(friendID: Id): (r: seq<Game>)
      reads this`games
      ensures forall g :: g in r <==> g in games && !g.started && g.ownerUserID == friendID && g.visibility == FriendsOnly
    {
      Filter(games, (g: Game) => !g.started && g.ownerUserID == friendID && g.visibility == FriendsOnly)
    }

    /** The friends' games, friendship by friendship. */
    function GamesOfFriends(friends: seq<Friendship>, forUserID: Id): (r: seq<Game>)
      reads this`games
      decreases |friends|
    {
      if friends == [] then []
      else
        GamesOfFriends(friends[..|friends| - 1], forUserID)
          + FriendGames(friends[|friends| - 1].GetFriendID(forUserID))
    }

    /** Public games first, then each friendship's games; duplicates are kept. */
    function AvailableToJoin(forUserID: Id): (r: seq<Game>)
      reads this`games, friendsService
    {
      PublicGames(forUserID) + GamesOfFriends(friendsService.FindFriends(forUserID), forUserID)
    }

    /** The games a friends list contributes are exactly the friends' unstarted friends-only games. */
    lemma {:induction false} GamesOfFriendsMembers(friends: seq<Friendship>, forUserID: Id, g: Game)
      ensures g in GamesOfFriends(friends, forUserID) <==>
        (g in games && !g.started && g.visibility == FriendsOnly
         && exists i :: 0 <= i < |friends| && friends[i].GetFriendID(forUserID) == g.ownerUserID)
      decreases |friends|
    {
      if friends != [] {
        var init := friends[..|friends| - 1];
        var last := friends[|friends| - 1];
        GamesOfFriendsMembers(init, forUserID, g);
        var p := (x: Game) => !x.started && x.ownerUserID == last.GetFriendID(forUserID) && x.visibility == FriendsOnly;
        assert g in FriendGames(last.GetFriendID(forUserID)) <==> g in games && p(g);
        if exists i :: 0 <= i < |friends| && friends[i].GetFriendID(forUserID) == g.ownerUserID {
          var i :| 0 <= i < |friends| && friends[i].GetFriendID(forUserID) == g.ownerUserID;
          if i < |friends| - 1 {
            assert init[i] == friends[i];
          }
        }
        if exists i :: 0 <= i < |init| && init[i].GetFriendID(forUserID) == g.ownerUserID {
          var i :| 0 <= i < |init| && init[i].GetFriendID(forUserID) == g.ownerUserID;
          assert friends[i] == init[i];
        }
      }
    }

    /**
     * A game can be joined by `forUserID` exactly when it has not started and
     * is either public and owned by someone else, or friends-only and owned by
     * the other member of one of the user's friendships.
     */
    lemma AvailableToJoinMembers(forUserID: Id, g: Game)
      ensures g in AvailableToJoin(forUserID) <==>
        (g in games && !g.started &&
         ((g.visibility == Public && g.ownerUserID != forUserID)
          || (g.visibility == FriendsOnly
              && exists f :: f in friendsService.friendships && Befriends(f, forUserID, g.ownerUserID))))
    {
      var friends := friendsService.FindFriends(forUserID);
      GamesOfFriendsMembers(friends, forUserID, g);
      var p := (x: Game) => x.visibility == Public && x.ownerUserID != forUserID && !x.started;
      assert g in PublicGames(forUserID) <==> g in games && p(g);
      if g.visibility == FriendsOnly && exists f :: f in friendsService.friendships && Befriends(f, forUserID, g.ownerUserID) {
        var f :| f in friendsService.friendships && Befriends(f, forUserID, g.ownerUserID);
        var i :| 0 <= i < |friends| && friends[i] == f;
      }
    }

    /** Public, unstarted games of others, then the friends' games, friendship by friendship. */
    method FindAvailableToJoin(forUserID: Id) returns (result: seq<Game>)
      ensures result == AvailableToJoin(forUserID)
    {
      result := Filter(games, (g: Game) => g.visibility == Public && g.ownerUserID != forUserID && !g.started);
      var friends := friendsService.FindFriends(forUserID);
      for i := 0 to |friends|
        invariant result == PublicGames(forUserID) + GamesOfFriends(friends[..i], forUserID)
      {
        assert friends[..i + 1][..i] == friends[..i];
        var friendID := friends[i].GetFriendID(forUserID);
        var friendGames := Filter(games, (g: Game) => !g.started && g.ownerUserID == friendID && g.visibility == FriendsOnly);
        result := result + friendGames;
      }
      assert friends[..|friends|] == friends;
    }
  }

  /** Saving a row under an existing key keeps the table valid. */
  lemma SavedKeepsValid(games: seq<Game>, nextGameId: Id, row: Game)
    requires GamesValid(games, nextGameId)
    requires exists i :: 0 <= i < |games| && games[i].id == row.id
    ensures GamesValid(Saved(games, row), nextGameId)
  {
    var saved := Saved(games, row);
    forall a, b | a in saved && b in saved && a.id == b.id
      ensures a == b
    {
      var k :| 0 <= k < |saved| && saved[k] == a;
      var l :| 0 <= l < |saved| && saved[l] == b;
      assert games[k] in games && games[l] in games;
    }
  }

  /** After saving a row under an existing key, that row is the one found under its key. */
  lemma SavedIsFound(games: seq<Game>, row: Game)
    requires exists i :: 0 <= i < |games| && games[i].id == row.id
    ensures FindFirst(Saved(games, row), (g: Game) => g.id == row.id) == Some(row)
  {
    var i :| 0 <= i < |games| && games[i].id == row.id;
    assert Saved(games, row)[i] == row;
  }
}
