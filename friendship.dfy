/**
 * The two records of the social graph (src/users/friends/entities/):
 * a friendship between `usera` and `userb`, and a pending friend request.
 */
module Friendships {
  import opened Tables

  /** A row of `users_are_friends`. */
  datatype Friendship = Friendship(id: Id, usera: Id, userb: Id, since: Timestamp)
  {
    /**
     * The member of the friendship that is not `ownID`: `userb` when
     * `ownID` is `usera`, otherwise `usera`, even for an id that belongs
     * to neither member.
     */
    function GetFriendID(ownID: Id): (r: Id)
      ensures r == usera || r == userb
      ensures ownID == usera ==> r == userb
      ensures ownID != usera ==> r == usera
      ensures usera != userb ==> (ownID == usera <==> r == userb)
    {
      if ownID == usera then userb else usera
    }

    predicate Between(a: Id, b: Id)
    {
      (usera == a && userb == b) || (usera == b && userb == a)
    }
  }

  /**
   * Between two different users, asking from either side gives the other
   * side, and asking again with that answer gives back the one who asked.
   */
  lemma FriendOfFriend(f: Friendship, ownID: Id)
    requires f.usera != f.userb && (ownID == f.usera || ownID == f.userb)
    ensures f.GetFriendID(ownID) != ownID
    ensures f.GetFriendID(f.GetFriendID(ownID)) == ownID
    ensures f.Between(ownID, f.GetFriendID(ownID))
  {
  }

  /** A row of `friend_request`; `ignored` defaults to false. */
  datatype FriendRequest = FriendRequest(
    id: Id,
    initiator: Id,
    requested: Id,
    requestedAt: Timestamp,
    ignored: bool)
  {
    predicate Between(a: Id, b: Id)
    {
      (initiator == a && requested == b) || (initiator == b && requested == a)
    }
  }
}
