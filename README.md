# Labyrinth backend: a verified model of the lobby, the social graph and the broker

This project models the sequential core of the labyrinth game backend in Dafny
and proves properties of it. The backend is a NestJS service in TypeScript.

- **Game lobby and moves** (`game.dfy`, module `Games`). `GameService` holds
  three things: the games table, the player-slot table (`player_plays_game`),
  and the move listeners. Its operations are:
  - creating a game and seating its owner;
  - seating further users at the next index;
  - starting a game, which only the owner may do;
  - playing a move. A move passes five checks in order, saves the new engine
    state, and then notifies every listener in registration order;
  - listing the games a user can join: public games first, then the games of
    each friend.
- **Friend requests** (`friends.dfy`, `friendship.dfy`, modules `Friends` and
  `Friendships`). `FriendsService` runs a protocol over two tables,
  friendships and friend requests. A request to someone who already asked you
  is accepted: it becomes a friendship.
- **Users** (`users.dfy`, module `Users`). `UsersService` covers the lookups,
  the taken-email and taken-username checks of registration, the win/loss
  counters and deletion.
- **Entity-mutation broker** (`subscribers.dfy`, module `Subscribers`). A
  `WsEntitySubscriber` holds a registry of per-socket `Client`s. Each client
  has an optional operations list, filter and pipe. Every store event goes to
  every client in registration order. A socket's clients leave the registry
  when it disconnects. Everything emitted on any socket is appended to one
  log, `emitted`.
- **Repository queries** (`tables.dfy`, module `Tables`). A table is a
  sequence of rows in insertion order, and the TypeORM calls become functions
  on it:
  - `find` is `Filter`;
  - `findOne` is `FindFirst`;
  - `exists` is `Any`;
  - `update(criteria, row)` is `UpdateWhere`;
  - the `indexOf`/`splice` idiom is `RemoveFirst`.

Modelling decisions:

- **Keys.** Primary keys are natural numbers handed out by a per-table
  counter. Each service's `Valid()` states that keys identify rows and lie
  below the counter. The deployed schema issues UUIDs instead (see
  "## Left out").
- **The game engine.** The external `labyrinth-game-logic` engine is a value
  of type `Engine<G>` made of abstract functions:
  - `buildFromSetup` is partial: `None` stands for a thrown error;
  - `buildFromString`;
  - `stringify`;
  - `currentTreasure`;
  - `move`, which returns whether the move was legal together with the game
    after it.
- **Listeners.** A move listener is an id, so listeners compare by identity.
  The calls made to listeners are logged as `notifications`.
- **Foreign functions and clocks.** `bcrypt.hash` and `JSON.stringify` are
  opaque constructor parameters. Timestamps (`new Date()`) are parameters of
  the operations.

Where the code and its tests disagree, the model follows the code. The test
at `src/game/game.service.spec.ts:149-160` expects a started game in
`findAvailableToJoin`, but the query at `src/game/game.service.ts:188-194`
excludes started games, and so does the model.

In two places the model does not follow the code. It reads a misnamed
property as the property that was evidently meant: `userA`/`userB` in the
friends service, and `shiftHeading` in `move`. "## Left out" lists the
members concerned and says what the code as written does.

## Model

| member | source | states |
|---|---|---|
| Tables.RemoveFirstPresent | src/game/game.service.ts:56-61 | `indexOf` then `splice(index, 1)` of a present element shortens the list by one and removes exactly one copy |
| Tables.RemoveFirstAbsent | src/game/game.service.ts:56-61 | removing an element that is not in the list leaves the list as it was |
| Tables.RemoveFirstSplit | src/utils/subscribers.ts:129-135 | only the first occurrence goes; the elements before and after it keep their order |
| Friendships.Friendship.GetFriendID | src/users/friends/entities/friendship.entity.ts:38-44 | the result is one of the two members: `userb` when `ownID` is `usera`, otherwise `usera`, even for an id that belongs to neither member; when the members differ, the result is `userb` exactly when `ownID` is `usera` |
| Friendships.FriendOfFriend | src/users/friends/entities/friendship.entity.ts:38-44 | for a member of a friendship between two different users, the friend is someone else, asking with the friend's id gives back the member, and the friendship links the two |
| Users.Finished | src/users/users.service.ts:60-64 | a win adds one to `gamesWon` and leaves `gamesLost` alone; a loss does the reverse; nothing else changes |
| Users.FinishedKeepsValid | src/users/users.service.ts:55-67 | overwriting one user's row with its finished-game version changes exactly the rows with that id and keeps keys unique |
| Users.UsersService.FindByUsername | src/users/users.service.ts:19-27 | finds a user with that username, or none when no user has it |
| Users.UsersService.FindById | src/users/users.service.ts:29-33 | finds a user with that id, or none when no user has it |
| Users.UsersService.EmailExists | src/users/users.service.ts:35-41 | true exactly when some user has that email |
| Users.UsersService.UsernameExists | src/users/users.service.ts:43-49 | true exactly when some user has that username |
| Users.UsersService.UserFinishedGame | src/users/users.service.ts:55-67 | an unknown id fails with "User doesn't exist" and changes nothing; otherwise every row of that user gets one more win or one more loss and all other rows stay |
| Users.UsersService.Register | src/users/users.service.ts:70-88 | a taken email fails first, then a taken username; a failure inserts nothing; success appends exactly one user with the given email and username, the password hashed with 10 rounds, and zero counters |
| Users.UsersService.Delete | src/users/users.service.ts:90-94 | removes exactly the rows with that id; every other user stays |
| Friends.WithoutFriendship | src/users/friends/friends.service.ts:86-92 | removing a friendship row keeps exactly the rows with another id |
| Friends.WithoutRequest | src/users/friends/friends.service.ts:150-158 | removing a request row keeps exactly the rows with another id |
| Friends.SendKeepsConsistent | src/users/friends/friends.service.ts:49-54 | a new request between two different users who share no friendship and no request keeps every pair linked by at most one record |
| Friends.AcceptKeepsConsistent | src/users/friends/friends.service.ts:150-158 | turning a pending request into a friendship keeps every pair linked by at most one record, and no request is left between the pair |
| Friends.FriendsService.FindFriends | src/users/friends/friends.service.ts:57-68 | exactly the friendships that the user belongs to, on either side |
| Friends.FriendsService.FindSendRequests | src/users/friends/friends.service.ts:70-76 | exactly the requests the user initiated |
| Friends.FriendsService.FindReceivedRequests | src/users/friends/friends.service.ts:78-84 | exactly the requests sent to the user |
| Friends.FriendsService.FindFriendship | src/users/friends/friends.service.ts:102-118 | a friendship between the two users in either direction, or none when no such friendship exists |
| Friends.FriendsService.FindSpecificFriendshipRequest | src/users/friends/friends.service.ts:120-130 | a request from `initiator` to `requested` in that direction only, or none |
| Friends.FriendsService.FindFriendshipRequest | src/users/friends/friends.service.ts:132-148 | a request between the two users in either direction, or none |
| Friends.FriendsService.AddFriendRequest | src/users/friends/friends.service.ts:18-55 | the checks run in order: same user, unknown initiator, unknown requested user, already friends, already sent; a failure changes nothing; with a pending reverse request, that request is removed and the friendship (its initiator, its requested user) is added; otherwise exactly one request is appended and the friendships stay |
| Friends.FriendsService.SendRequest | src/users/friends/friends.service.ts:49-54 | appends exactly one not-ignored request under the next key and keeps the tables consistent |
| Friends.FriendsService.AcceptRequest | src/users/friends/friends.service.ts:150-158 | the request row goes and one friendship between its initiator and its requested user is appended; afterwards the pair has a friendship and no request |
| Friends.FriendsService.RemoveFriendShip | src/users/friends/friends.service.ts:86-92 | with no friendship between the pair, fails with 'friendship does not exist' and changes nothing; otherwise removes that record, leaves the pair unlinked and keeps every other friendship |
| Friends.FriendsService.DeleteFriendShipRequest | src/users/friends/friends.service.ts:94-100 | with no request between the pair, fails with 'request does not exist' and changes nothing; otherwise removes that record, leaves no request between the pair and keeps every other request |
| Subscribers.Client.OperationIncluded | src/utils/subscribers.ts:25-30 | with no operations list every operation is accepted; with a list, exactly the listed ones are |
| Subscribers.Client.CanPass | src/utils/subscribers.ts:32-41 | without a filter everything passes; with one, its verdict decides |
| Subscribers.Client.Process | src/utils/subscribers.ts:43-49 | without a pipe the entity is sent unchanged; with one, the pipe's result is sent |
| Subscribers.Client.AfterInsert | src/utils/subscribers.ts:51-60 | emits one 'add' of the piped entity exactly when inserts are wanted and the filter passes; otherwise emits nothing |
| Subscribers.Client.AfterUpdate | src/utils/subscribers.ts:62-74 | emits exactly when an entity is present, and then a single 'update' whose payload is piped with the 'remove' operation |
| Subscribers.Client.AfterUpdateIntended | src/utils/subscribers.ts:62-74 | the update hook as the other two hooks behave: emits one 'update' piped as an update exactly when updates are wanted, the entity is present and the filter passes |
| Subscribers.Client.BeforeRemove | src/utils/subscribers.ts:76-95 | emits one 'remove' exactly when removals are wanted, the entity is present and the filter passes; the payload is the piped copy of the entity |
| Subscribers.Client.Handle | src/utils/subscribers.ts:51-123 | an insert is answered by the insert hook, an update by the update hook and a removal by the removal hook; the answer is at most one emit, and only on the client's own socket |
| Subscribers.Broadcast | src/utils/subscribers.ts:107-123 | a broadcast emits no more messages than there are clients |
| Subscribers.BroadcastAround | src/utils/subscribers.ts:107-123 | every client contributes its own answer, in its own place in the registry, and that answer is at most one emit: each client gets at most one message per event |
| Subscribers.InsertReachesInterestedClients | src/utils/subscribers.ts:51-60 | every registered client that wants inserts and whose filter passes the entity receives the 'add' of its piped entity |
| Subscribers.RemovalReachesInterestedClients | src/utils/subscribers.ts:76-95 | every registered client that wants removals and whose filter passes the entity receives the 'remove' of its piped copy |
| Subscribers.UpdateReachesEveryClient | src/utils/subscribers.ts:62-74 | as written, every registered client receives 'update' for every updated entity, piped as a removal |
| Subscribers.BroadcastSockets | src/utils/subscribers.ts:107-123 | everything a broadcast emits goes to the socket of a registered client |
| Subscribers.BroadcastConcat | src/utils/subscribers.ts:107-123 | clients decide independently: broadcasting to two registries in a row is broadcasting to each |
| Subscribers.Connected | src/utils/subscribers.ts:129-135 | the clients left after a disconnect are exactly those of other sockets |
| Subscribers.NothingAfterDisconnect | src/utils/subscribers.ts:129-135 | once a socket has disconnected, no later event reaches it |
| Subscribers.InsertOnlyClientMissesRemovals | src/utils/subscribers.ts:76-86 | a client that asked only for inserts gets no removal, and would get no update under the intended update hook |
| Subscribers.InsertOnlyClientHearsUpdates | src/utils/subscribers.ts:62-74 | as written, a client that asked only for inserts still gets every update, piped with 'remove', unlike the intended hook |
| Subscribers.RejectingFilterPassesUpdates | src/utils/subscribers.ts:66-68 | as written, an update the filter rejects is still emitted; the intended hook holds it back |
| Subscribers.DisconnectDrops | src/utils/subscribers.ts:129-135 | a disconnect handler run halfway through a disconnect removes its own client and nothing else |
| Subscribers.DisconnectKeeps | src/utils/subscribers.ts:129-135 | a disconnect leaves the clients of other sockets where they are |
| Subscribers.WsEntitySubscriber.Dispatch | src/utils/subscribers.ts:107-123 | appends exactly the broadcast of the event over the registry to the log |
| Subscribers.WsEntitySubscriber.AfterInsert | src/utils/subscribers.ts:107-111 | appends the insert broadcast over the current clients to the log |
| Subscribers.WsEntitySubscriber.AfterUpdate | src/utils/subscribers.ts:113-117 | appends the update broadcast over the current clients to the log |
| Subscribers.WsEntitySubscriber.BeforeRemove | src/utils/subscribers.ts:119-123 | appends the removal broadcast over the current clients to the log |
| Subscribers.WsEntitySubscriber.ManageClient | src/utils/subscribers.ts:125-128 | appends exactly one new client for the socket, with the given options or none |
| Subscribers.WsEntitySubscriber.RemoveClient | src/utils/subscribers.ts:129-135 | the disconnect handler removes its client if it is still there, and leaves the others in order |
| Subscribers.WsEntitySubscriber.Disconnect | src/utils/subscribers.ts:129-135 | all clients of the socket leave the registry, the others stay in order, and a second disconnect removes nothing |
| Subscribers.DisconnectTwice | src/utils/subscribers.ts:129-135 | disconnecting a socket that has already disconnected leaves the registry unchanged |
| Tables.FilterAll | src/utils/subscribers.ts:129-135 | a query every row satisfies returns the whole table, in order |
| Games.Notify | src/game/game.service.ts:181-183 | each listener is called once, in registration order, with the game id and the move |
| Games.RemovedListenerNotNotified | src/game/game.service.ts:52-61 | a listener registered at most once is not called after it is removed |
| Games.PlayersOf | src/game/game.service.ts:96-105 | exactly the seats of the game |
| Games.InsertGameKeepsValid | src/game/game.service.ts:80 | inserting a game under the next key keeps keys unique and makes it the game found under that key |
| Games.NewGameHasNoSeats | src/game/game.service.ts:80-81 | a freshly inserted game has no seats, so its owner gets index 0 |
| Games.AppendSeatKeepsValid | src/game/game.service.ts:122-129 | seating a player at index equal to the number of existing seats keeps every game's seats numbered 0, 1, …, so sequential joins get dense indices |
| Games.AlreadyPlayingComparesSeatKeys | src/game/game.service.ts:116-121 | as written, a user who already holds a seat is let in again; with the model's per-table natural keys, a user without a seat is also refused when a seat's key happens to equal their id, which UUID keys make practically impossible |
| Games.ScanSeatKeys | src/game/game.service.ts:116-121 | the loop over the existing seats reports a match exactly when some seat's own key equals the user id |
| Games.SingleSeatPlayers | src/game/game.service.ts:96-105 | a table holding one seat lists exactly that seat for its game |
| Games.IntendedJoin | src/game/game.service.ts:107-130 | the join with the intended test: 'user does not exist', then 'game does not exist', then 'already playing' when the user holds one of the game's seats; it succeeds exactly when none of these holds |
| Games.SeatedUserRefused | src/game/game.service.ts:116-129 | with the intended test, once a seat of the user has been added to the game, the same join fails with 'already playing' |
| Games.IntendedJoinKeepsOneSeat | src/game/game.service.ts:116-129 | a join that passes the intended test keeps every user to at most one seat per game |
| Games.DoubleSeatAsWritten | src/game/game.service.ts:116-129 | as written, the seated user 7 passes the test, and appending the second seat puts two seats of user 7 in one game |
| Games.Saved | src/game/game.service.ts:93 | `update({ id }, row)` overwrites exactly the rows with the row's key |
| Games.SavedKeepsValid | src/game/game.service.ts:179-180 | saving a row under an existing key keeps keys unique |
| Games.SavedIsFound | src/game/game.service.ts:92-93 | after saving, the saved row is the one found under its key |
| Games.GameService.AddMoveListener | src/game/game.service.ts:52-54 | appends the listener |
| Games.GameService.RemoveMoveListener | src/game/game.service.ts:56-61 | removes the first registration only; an absent listener leaves the list unchanged |
| Games.GameService.FindOne | src/game/game.service.ts:219-228 | the game with that key, or none when there is none |
| Games.GameService.FindByUser | src/game/game.service.ts:211-217 | exactly the games the user owns |
| Games.GameService.FindGamePlayers | src/game/game.service.ts:96-105 | exactly the seats of the game, numbered 0, 1, … in table order |
| Games.GameService.FindSeat | src/game/game.service.ts:133-141 | a seat of the user in the game, or none when the user holds no seat there |
| Games.GameService.NewSeat | src/game/game.service.ts:122-128 | the new seat is a human player's, for this game and user, under the next key, at index equal to the number of existing seats, not ready |
| Games.GameService.AddUserToGame | src/game/game.service.ts:107-130 | the errors come in order: user does not exist, game does not exist, a seat's own key equals the user id (the check as written); a failure changes nothing; success appends exactly the new seat, which becomes the last of the game's seats |
| Games.GameService.Create | src/game/game.service.ts:63-82 | a setup the engine rejects fails with 'invalid setup' and inserts nothing; otherwise exactly one unstarted, unfinished game owned by the caller is inserted, holding the engine's serialised state; then the owner is seated at index 0 and not ready, or, for an unknown owner, the call fails with 'user does not exist' and the game stays |
| Games.GameService.InsertGame | src/game/game.service.ts:80 | appends the game under the next key; it is then found by its key and has no seats |
| Games.GameService.StartGame | src/game/game.service.ts:84-94 | an unknown game fails with 'game does not exist'; a caller who is not the owner fails with 'no permission'; a failure changes nothing; otherwise only `started` of that game becomes true |
| Games.GameService.MoveOutcome | src/game/game.service.ts:132-178 | an accepted move saves a row of the same game, and the move is the request's rotation, shift, from and to, played with the seat's own index and the player's current treasure, which is present |
| Games.GameService.ValidMoveAccepted | src/game/game.service.ts:132-180 | a move that passes every check and that the engine accepts is accepted: the stored row gets the engine's new serialised state, and the move handed to the listeners is the request's move with the seat's index and the current treasure |
| Games.GameService.Move | src/game/game.service.ts:132-184 | a rejected move fails with its error and changes no game row and calls no listener; an accepted move saves the new state under the game's key and then calls every listener once, in order, with the game id and the move |
| Games.GameService.SaveGame | src/game/game.service.ts:179-180 | overwrites the rows with the saved row's key; afterwards that row is the one found |
| Games.GameService.NotifyListeners | src/game/game.service.ts:181-183 | appends one call per listener, in registration order |
| Games.GameService.AcceptedMoveChecks | src/game/game.service.ts:132-178 | an accepted move passed every check in order: the user has a seat, the game exists and has started, the claimed treasure is the seat's current treasure, and the engine accepts the move played with the seat's own index; the saved row is the stored one with the engine's new serialisation |
| Games.GameService.MoveErrors | src/game/game.service.ts:139-178 | no seat or no game row gives 'game does not exist', an unstarted game gives 'the game did not start yet', a claim that is not the current treasure gives 'invalid move', and so does a move the engine rejects, in that order |
| Games.GameService.NullClaimRejected | src/game/game.service.ts:161-166 | a move whose claim is `null` is never accepted, for a body of the declared type (a number or null); an omitted claim is not modelled |
| Games.GameService.MoveIgnoresRequestedIndex | src/game/game.service.ts:161-174 | the player index in the request does not influence the outcome |
| Games.GameService.AcceptedMoveOnlyChangesState | src/game/game.service.ts:179-180 | an accepted move changes only the game state of its own row, and no other row |
| Games.GameService.PublicGames | src/game/game.service.ts:188-194 | a game is listed exactly when it is in the table, public, unstarted and owned by someone else |
| Games.GameService.FriendGames | src/game/game.service.ts:199-205 | a game is listed exactly when it is in the table, unstarted, friends-only and owned by that friend |
| Games.GameService.GamesOfFriendsMembers | src/game/game.service.ts:196-207 | a game comes from the friends list exactly when it is an unstarted friends-only game owned by the friend of one of the listed friendships |
| Games.GameService.AvailableToJoinMembers | src/game/game.service.ts:186-209 | a game is listed exactly when it is unstarted and either public and owned by someone else, or friends-only and owned by the other member of one of the user's friendships |
| Games.GameService.FindAvailableToJoin | src/game/game.service.ts:186-209 | returns the public games first, then each friendship's games in friendship order, without removing duplicates |

## Left out

- Database behaviour beyond the queries: the result order of `find` is taken to be insertion order. Foreign keys, column types, relation loading (`relations: { user: true }`) and transactions are not modelled. The game entity declares a `ManyToOne` on `owner_user`, but the model has no foreign key. As a result, `create` with an unknown owner keeps the inserted game row in the model.
- Asynchrony: every `await` is taken in program order. The per-client broadcast calls, which the source does not await, are dispatched one after another.
- I/O: `console.log` calls, controllers, the WebSocket gateway, the subscriber subclasses, authentication, module wiring and the test-ws stub are not part of this model.
- `bcrypt.hash`, `JSON.stringify` of the create request, and the deep copy made before a removal are not modelled in detail: the hash and the encoding are opaque functions, and the model treats the copy as the entity. The source's `JSON.parse(JSON.stringify(..))` copy (`src/utils/subscribers.ts:91`) differs from the entity in two ways. It turns the `Date` columns (`Friendship.since`, `FriendRequest.requestedAt`, `Game.startTime`) into strings. It also drops methods such as `getFriendID`.
- The labyrinth engine's internals (board, shifts, treasures, move legality) are abstract functions. `buildFromString` is taken to be total on stored states. The `!shiftPosition` test in `move` can never fire, so it is left out.
- A pipe's result is taken to have the entity's type. A filter or pipe that returns `null` or `undefined`, which the `??` defaults would replace, is not modelled.
- `findMany` is not part of this model.
- Games.GameService.AddUserToGame: keys are modelled as per-table natural numbers, but the deployed schema issues UUIDs. The schema comes from `src/sql/createDB.sql`, since `synchronize` is off at `src/app.module.ts:29`, and the test setup registers `uuid_generate_v4` (`src/test-utils/pgMemModule.ts:17-27`). Ids reaching the services pass `ParseUUIDPipe` (`src/game/game.controller.ts:126,149`, `src/game/game.gateway.ts:30,47`). In the model a seat key can therefore equal a user id, so an unseated user can be refused with ALREADY_PLAYING. That collision is an artefact of the model; with UUIDs it practically never happens. The string typing of ids is not modelled either.
- Games.GameService.MoveOutcome: the request body is taken at its declared type, `collectedTreasure: number | null`, with "absent" merged into `null`. No `ValidationPipe` is installed, so a body that omits `collectedTreasure` reaches `move`. The comparison at `src/game/game.service.ts:164` is `currentTreasure?.id !== moveDto.collectedTreasure`, and `undefined !== undefined` is false. Such a move is therefore accepted whenever the player has no current treasure. The model, and `Games.GameService.NullClaimRejected`, reject it.
- Games.GameService.NotifyListeners: a listener is an effect-free id. A source listener could throw, which would end the loop at `src/game/game.service.ts:181-183` after the game row was already saved. It could also remove itself during the iteration, which would skip the next listener. Neither is modelled.
- Friends.FriendsService.FindFriends: `src/users/friends/friends.service.ts:57-68` filters on the keys `userA`/`userB`, but the entity's properties are `usera`/`userb` (`src/users/friends/entities/friendship.entity.ts:17-27`). Under TypeORM 0.3, a `where` on an unknown property is rejected with an error rather than matched. The model filters on the entity's columns, and does not model that error.
- Friends.FriendsService.FindFriendship: the code has the same `userA`/`userB` keys (`src/users/friends/friends.service.ts:102-118`). The model does not capture the error this raises. That error would also reach `AddFriendRequest` after its user checks, and `RemoveFriendShip`.
- Friends.FriendsService.AcceptRequest: `create` at `src/users/friends/friends.service.ts:151-155` is passed `userA`/`userB`, which name no property, so TypeORM leaves `usera`/`userb` unset and the insert does not store the pair. The model stores the pair (initiator, requested user).
- Games.GameService.FindAvailableToJoin: it reads the friendships through `findFriends`, so it inherits the error described for `Friends.FriendsService.FindFriends`, which the model does not capture.
- Games.GameService.Move: `src/game/game.service.ts:154-157` passes `moveDto.shiftPosition.shiftHeading`, a property the DTO does not have (its field is `heading`, `src/game/dto/move.dto.ts:19-24`). As written, the engine therefore gets an undefined heading. The model passes `heading`; what the engine does with an undefined heading is not modelled.
- Games.GameService.MoveOutcome: the same `shiftHeading` reading as `Games.GameService.Move`. The model builds the move from `heading`.
- Subscribers.WsEntitySubscriber.Disconnect: a socket's disconnect handlers run one after another, and each one only touches its own client.

## Findings

| source | as written | input that shows it | evidently intended | confidence | as-written member | corrected member |
|---|---|---|---|---|---|---|
| src/utils/subscribers.ts:62-74 | the update hook does not consult `operations`; it tests `!this.canPass(...)` on a Promise that is never awaited, so the filter never holds an update back; and it pipes with the operation 'remove' | a client registered with operations ['insert'], or with a filter that rejects the entity, receives 'update' for every updated entity | like the insert and remove hooks: check that updates are wanted, await the filter, pipe as 'update' | not executed | Subscribers.Client.AfterUpdate (shown by Subscribers.InsertOnlyClientHearsUpdates and Subscribers.RejectingFilterPassesUpdates) | Subscribers.Client.AfterUpdateIntended (proved in Subscribers.InsertOnlyClientMissesRemovals) |
| src/game/game.service.ts:117-121 | ALREADY_PLAYING compares each existing seat's own row key `existingPlayer.id` with the user id | a game whose only seat has key 5 and belongs to user 7: user 7 is seated a second time, at index 1, so user 7 holds two seats in one game. (With the model's natural keys, user 5, who has no seat, would also be refused; UUID keys make that practically impossible.) | compare `existingPlayer.userID` with the user id | not executed | Games.SeatKeyIs (shown by Games.AlreadyPlayingComparesSeatKeys and Games.DoubleSeatAsWritten) | Games.AlreadySeated and Games.IntendedJoin (proved in Games.SeatedUserRefused and Games.IntendedJoinKeepsOneSeat) |

The operations keep the code as written: `Subscribers.WsEntitySubscriber` broadcasts
with `Client.AfterUpdate`, and `Games.GameService.AddUserToGame` uses `SeatKeyIs`.
The corrected definitions sit beside them.
