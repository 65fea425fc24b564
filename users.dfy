/**
 * The users table and `UsersService` (src/users/users.service.ts,
 * src/users/entities/user.entity.ts): lookups, the two "taken" checks of
 * registration, the win/loss counters and deletion.
 */
module Users {
  import opened Tables

  /** A row of the `users` table; the counters default to 0. */
  datatype User = User(
    id: Id,
    email: string,
    username: string,
    password: string,
    gamesWon: nat,
    gamesLost: nat)

  datatype RegisterDto = RegisterDto(email: string, password: string, username: string)

  datatype UsersError =
    | EmailTaken        // 'email taken'
    | UsernameTaken     // 'username taken'
    | UserDoesNotExist  // "User doesn't exist" (a plain Error, not a bad request)

  /** The user after one finished game: one more win, or one more loss. */
  function Finished(u: User, isWinner: bool): (v: User)
    ensures v.id == u.id && v.email == u.email && v.username == u.username && v.password == u.password
    ensures isWinner ==> v.gamesWon == u.gamesWon + 1 && v.gamesLost == u.gamesLost
    ensures !isWinner ==> v.gamesLost == u.gamesLost + 1 && v.gamesWon == u.gamesWon
  {
    if isWinner then u.(gamesWon := u.gamesWon + 1) else u.(gamesLost := u.gamesLost + 1)
  }

  /** Keys identify rows and are below the next value of the key counter. */
  ghost predicate UsersValid(users: seq<User>, nextId: Id)
  {
    && (forall i :: 0 <= i < |users| ==> users[i].id < nextId)
    && (forall u, v :: u in users && v in users && u.id == v.id ==> u == v)
  }

  /**
   * Overwriting the row of `found` with its finished-game version updates
   * exactly that user's counters and keeps the table valid.
   */
  lemma FinishedKeepsValid(users: seq<User>, nextId: Id, found: User, isWinner: bool)
    requires UsersValid(users, nextId) && found in users
    ensures var after := UpdateWhere(users, (x: User) => x.id == found.id, Finished(found, isWinner));
      && UsersValid(after, nextId)
      && |after| == |users|
      && forall i :: 0 <= i < |users| ==> after[i] == if users[i].id == found.id then Finished(users[i], isWinner) else users[i]
  {
    var after := UpdateWhere(users, (x: User) => x.id == found.id, Finished(found, isWinner));
    forall i | 0 <= i < |users|
      ensures after[i] == if users[i].id == found.id then Finished(users[i], isWinner) else users[i]
    {
      if users[i].id == found.id {
        assert users[i] in users;
      }
    }
    forall x, y | x in after && y in after && x.id == y.id
      ensures x == y
    {
      var k :| 0 <= k < |after| && after[k] == x;
      var l :| 0 <= l < |after| && after[l] == y;
      assert users[k] in users && users[l] in users;
    }
  }

  /** The bcrypt cost factor passed along with every password. */
  const SaltRounds: nat := 10

  class UsersService {
    var users: seq<User>
    var nextId: Id
    /** bcrypt.hash, treated as an opaque function of password and cost. */
    const hash: (string, nat) -> string

    /** Keys identify rows and are below the next value of the key counter. */
    ghost predicate Valid()
      reads this`users, this`nextId
    {
      UsersValid(users, nextId)
    }

    constructor (hash: (string, nat) -> string)
      ensures Valid() && users == [] && this.hash == hash
    {
      users := [];
      nextId := 0;
      this.hash := hash;
    }

    function FindByUsername(username: string): (r: Option<User>)
      reads this`users
      ensures r.Some? ==> r.value in users && r.value.username == username
      ensures r.None? <==> forall i :: 0 <= i < |users| ==> users[i].username != username
    {
      FindFirst(users, (u: User) => u.username == username)
    }

    function FindById(id: Id): (r: Option<User>)
      reads this`users
      ensures r.Some? ==> r.value in users && r.value.id == id
      ensures r.None? <==> forall i :: 0 <= i < |users| ==> users[i].id != id
    {
      FindFirst(users, (u: User) => u.id == id)
    }

    function EmailExists(email: string): (b: bool)
      reads this`users
      ensures b <==> exists i :: 0 <= i < |users| && users[i].email == email
    {
      Any(users, (u: User) => u.email == email)
    }

    function UsernameExists(username: string): (b: bool)
      reads this`users
      ensures b <==> exists i :: 0 <= i < |users| && users[i].username == username
    {
      Any(users, (u: User) => u.username == username)
    }

    /** Increments `gamesWon` (winner) or `gamesLost` (loser) of one user. */
    method UserFinishedGame(userID: Id, isWinner: bool) returns (r: Outcome<UsersError>)
      requires Valid()
      modifies this`users
      ensures Valid()
      ensures old(FindById(userID)).None? ==> r == Fail(UserDoesNotExist) && users == old(users)
      ensures old(FindById(userID)).Some? ==> r == Pass && |users| == |old(users)|
      ensures old(FindById(userID)).Some? ==>
        forall i :: 0 <= i < |users| ==>
          users[i] == if old(users)[i].id == userID then Finished(old(users)[i], isWinner) else old(users)[i]
    {
      var user := FindById(userID);
      if user.None? {
        return Fail(UserDoesNotExist);
      }
      var u := user.value;
      if isWinner {
        u := u.(gamesWon := u.gamesWon + 1);
      } else {
        u := u.(gamesLost := u.gamesLost + 1);
      }
      assert u == Finished(user.value, isWinner);
      FinishedKeepsValid(users, nextId, user.value, isWinner);
      users := UpdateWhere(users, (x: User) => x.id == userID, u);
      r := Pass;
    }

    /** Registration: the email check comes before the username check. */
    method Register(dto: RegisterDto) returns (r: Outcome<UsersError>)
      requires Valid()
      modifies this`users, this`nextId
      ensures Valid()
      ensures old(EmailExists(dto.email)) ==> r == Fail(EmailTaken)
      ensures !old(EmailExists(dto.email)) && old(UsernameExists(dto.username)) ==> r == Fail(UsernameTaken)
      ensures r.Fail? ==> users == old(users) && nextId == old(nextId)
      ensures r.Pass? <==> !old(EmailExists(dto.email)) && !old(UsernameExists(dto.username))
      ensures r.Pass? ==>
        users == old(users) + [User(old(nextId), dto.email, dto.username, hash(dto.password, SaltRounds), 0, 0)]
    {
      if EmailExists(dto.email) {
        return Fail(EmailTaken);
      }
      if UsernameExists(dto.username) {
        return Fail(UsernameTaken);
      }
      var hashedPassword := hash(dto.password, SaltRounds);
      var user := User(nextId, dto.email, dto.username, hashedPassword, 0, 0);
      users := users + [user];
      nextId := nextId + 1;
      r := Pass;
    }

    /** Deletes the rows with key `id`; an unknown id deletes nothing. */
    method Delete(id: Id)
      requires Valid()
      modifies this`users
      ensures Valid()
      ensures users == Filter(old(users), (u: User) => u.id != id)
      ensures FindById(id).None?
      ensures forall u :: u in old(users) && u.id != id ==> u in users
    {
      users := Filter(users, (u: User) => u.id != id);
    }
  }
}
