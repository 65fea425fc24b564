/**
 * `FriendsService` (src/users/friends/friends.service.ts): the friend-request
 * protocol over two tables, friendships and pending requests.
 */
module Friends {
  import opened Tables
  import opened Friendships
  import Users

  datatype FriendsError =
    | SameUser                // 'same user'
    | InvalidUser             // 'invalid user'
    | AlreadyFriends          // 'already friends'
    | AlreadySent             // 'already sent'
    | FriendshipDoesNotExist  // 'friendship does not exist'
    | RequestDoesNotExist     // 'request does not exist'

  /** `remove(friendship)`: the rows without that key. */
  function WithoutFriendship(fs: seq<Friendship>, id: Id): (r: seq<Friendship>)
    ensures forall f :: f in r <==> f in fs && f.id != id
  {
    Filter(fs, (f: Friendship) => f.id != id)
  }

  /** `remove(friendRequest)`: the rows without that key. */
  function WithoutRequest(rs: seq<FriendRequest>, id: Id): (r: seq<FriendRequest>)
    ensures forall q :: q in r <==> q in rs && q.id != id
  {
    Filter(rs, (q: FriendRequest) => q.id != id)
  }

  /**
   * The protocol the checks of `addFriendRequest` keep: nobody is related
   * to themselves, and a pair of users is linked by at most one record,
   * a friendship or a request in one direction.
   */
  ghost predicate Consistent(fs: seq<Friendship>, rs: seq<FriendRequest>)
  {
    && (forall f :: f in fs ==> f.usera != f.userb)
    && (forall q :: q in rs ==> q.initiator != q.requested)
    && (forall f, g :: f in fs && g in fs && f != g ==> !g.Between(f.usera, f.userb))
    && (forall q, w :: q in rs && w in rs && q != w ==> !w.Between(q.initiator, q.requested))
    && (forall f, q :: f in fs && q in rs ==> !q.Between(f.usera, f.userb))
  }

  /** A new request between two unlinked, distinct users keeps the protocol. */
  lemma SendKeepsConsistent(fs: seq<Friendship>, rs: seq<FriendRequest>, q: FriendRequest)
    requires Consistent(fs, rs)
    requires q.initiator != q.requested
    requires forall f :: f in fs ==> !f.Between(q.initiator, q.requested)
    requires forall w :: w in rs ==> !w.Between(q.initiator, q.requested)
    ensures Consistent(fs, rs + [q])
  {
  }

  /** Replacing a request by the friendship of the same pair keeps the protocol. */
  lemma AcceptKeepsConsistent(fs: seq<Friendship>, rs: seq<FriendRequest>, q: FriendRequest, f: Friendship)
    requires Consistent(fs, rs)
    requires q in rs
    requires forall w :: w in rs && w.id == q.id ==> w == q
    requires f.usera == q.initiator && f.userb == q.requested
    requires forall g :: g in fs ==> !g.Between(f.usera, f.userb)
    ensures Consistent(fs + [f], WithoutRequest(rs, q.id))
    ensures forall w :: w in WithoutRequest(rs, q.id) ==> !w.Between(f.usera, f.userb)
  {
    forall w | w in WithoutRequest(rs, q.id)
      ensures !w.Between(f.usera, f.userb)
    {
      assert w != q;
    }
  }

  class FriendsService {
    var friendships: seq<Friendship>
    var requests: seq<FriendRequest>
    var nextFriendshipId: Id
    var nextRequestId: Id
    const usersService: Users.UsersService

    /** Keys identify rows and are below the next value of their table's key counter. */
    ghost predicate KeysValid()
      reads this`friendships, this`requests, this`nextFriendshipId, this`nextRequestId
    {
      && (forall f :: f in friendships ==> f.id < nextFriendshipId)
      && (forall f, g :: f in friendships && g in friendships && f.id == g.id ==> f == g)
      && (forall q :: q in requests ==> q.id < nextRequestId)
      && (forall q, w :: q in requests && w in requests && q.id == w.id ==> q == w)
    }

    ghost predicate Valid()
      reads this`friendships, this`requests, this`nextFriendshipId, this`nextRequestId
    {
      KeysValid() && Consistent(friendships, requests)
    }

    constructor (usersService: Users.UsersService)
      ensures Valid() && this.usersService == usersService
      ensures friendships == [] && requests == []
    {
      friendships, requests := [], [];
      nextFriendshipId, nextRequestId := 0, 0;
      this.usersService := usersService;
    }

    /** The friendships `userID` belongs to, on either side, in table order. */
    function FindFriends(userID: Id): (r: seq<Friendship>)
      reads this`friendships
      ensures forall i :: 0 <= i < |r| ==> r[i] in friendships && (r[i].usera == userID || r[i].userb == userID)
      ensures forall f :: f in friendships && (f.usera == userID || f.userb == userID) ==> f in r
    {
      Filter(friendships, (f: Friendship) => f.usera == userID || f.userb == userID)
    }

    /** The requests `userID` has sent. */
    function FindSendRequests(userID: Id): (r: seq<FriendRequest>)
      reads this`requests
      ensures forall i :: 0 <= i < |r| ==> r[i] in requests && r[i].initiator == userID
      ensures forall q :: q in requests && q.initiator == userID ==> q in r
    {
      Filter(requests, (q: FriendRequest) => q.initiator == userID)
    }

    /** The requests `userID` has received. */
    function FindReceivedRequests(userID: Id): (r: seq<FriendRequest>)
      reads this`requests
      ensures forall i :: 0 <= i < |r| ==> r[i] in requests && r[i].requested == userID
      ensures forall q :: q in requests && q.requested == userID ==> q in r
    {
      Filter(requests, (q: FriendRequest) => q.requested == userID)
    }

    /** A friendship between the two users, whichever of them is `usera`. */
    function FindFriendship(userA: Id, userB: Id): (r: Option<Friendship>)
      reads this`friendships
      ensures r.Some? ==> r.value in friendships && r.value.Between(userA, userB)
      ensures r.None? <==> forall f :: f in friendships ==> !f.Between(userA, userB)
    {
      FindFirst(friendships, (f: Friendship) => f.Between(userA, userB))
    }

    /** A request sent by `initiator` to `requested`, in that direction only. */
    function FindSpecificFriendshipRequest(initiator: Id, requested: Id): (r: Option<FriendRequest>)
      reads this`requests
      ensures r.Some? ==> r.value in requests && r.value.initiator == initiator && r.value.requested == requested
      ensures r.None? <==> forall q :: q in requests ==> !(q.initiator == initiator && q.requested == requested)
    {
      FindFirst(requests, (q: FriendRequest) => q.initiator == initiator && q.requested == requested)
    }

    /** A request between the two users, in either direction. */
    function FindFriendshipRequest(initiator: Id, requested: Id): (r: Option<FriendRequest>)
      reads this`requests
      ensures r.Some? ==> r.value in requests && r.value.Between(initiator, requested)
      ensures r.None? <==> forall q :: q in requests ==> !q.Between(initiator, requested)
    {
      FindFirst(requests, (q: FriendRequest) => q.Between(initiator, requested))
    }

    /**
     * Sends a friend request, or accepts the one pending in the other
     * direction. The checks run in this order: same user, unknown
     * initiator, unknown requested user, already friends, already sent.
     */
    method AddFriendRequest(initiator: Id, requested: Id, now: Timestamp) returns (r: Outcome<FriendsError>)
      requires Valid()
      modifies this`friendships, this`requests, this`nextFriendshipId, this`nextRequestId
      ensures Valid()
      ensures initiator == requested ==> r == Fail(SameUser)
      ensures (initiator != requested && usersService.FindById(initiator).None?) ==> r == Fail(InvalidUser)
      ensures (initiator != requested && usersService.FindById(initiator).Some? &&
               usersService.FindById(requested).None?) ==> r == Fail(InvalidUser)
      ensures (initiator != requested && usersService.FindById(initiator).Some? &&
               usersService.FindById(requested).Some? && old(FindFriendship(initiator, requested)).Some?) ==>
              r == Fail(AlreadyFriends)
      ensures (initiator != requested && usersService.FindById(initiator).Some? &&
               usersService.FindById(requested).Some? && old(FindFriendship(initiator, requested)).None? &&
               old(FindSpecificFriendshipRequest(initiator, requested)).Some?) ==>
              r == Fail(AlreadySent)
      ensures r.Fail? ==> friendships == old(friendships) && requests == old(requests)
      ensures r.Pass? <==>
        && initiator != requested
        && usersService.FindById(initiator).Some? && usersService.FindById(requested).Some?
        && old(FindFriendship(initiator, requested)).None?
        && old(FindSpecificFriendshipRequest(initiator, requested)).None?
      ensures (r.Pass? && old(FindSpecificFriendshipRequest(requested, initiator)).Some?) ==>
        && requests == WithoutRequest(old(requests), old(FindSpecificFriendshipRequest(requested, initiator)).value.id)
        && friendships == old(friendships) + [Friendship(old(nextFriendshipId), requested, initiator, now)]
      ensures (r.Pass? && old(FindSpecificFriendshipRequest(requested, initiator)).None?) ==>
        && requests == old(requests) + [FriendRequest(old(nextRequestId), initiator, requested, now, false)]
        && friendships == old(friendships)
    {
      if initiator == requested {
        return Fail(SameUser);
      }
      var initiatorUser := usersService.FindById(initiator);
      if initiatorUser.None? {
        return Fail(InvalidUser);
      }
      var requestedUser := usersService.FindById(requested);
      if requestedUser.None? {
        return Fail(InvalidUser);
      }
      var friendShip := FindFriendship(initiator, requested);
      if friendShip.Some? {
        return Fail(AlreadyFriends);
      }
      var ownRequest := FindSpecificFriendshipRequest(initiator, requested);
      if ownRequest.Some? {
        return Fail(AlreadySent);
      }
      var receivedRequest := FindSpecificFriendshipRequest(requested, initiator);
      if receivedRequest.Some? {
        var pending := receivedRequest.value;
        forall f | f in friendships
          ensures !f.Between(pending.initiator, pending.requested)
        {
          assert !f.Between(initiator, requested);
        }
        AcceptRequest(pending, now);
        return Pass;
      }
      SendRequest(initiator, requested, now);
      r := Pass;
    }

    /** Inserts a request from `initiator` to `requested` when none links the pair yet. */
    method SendRequest(initiator: Id, requested: Id, now: Timestamp)
      requires Valid() && initiator != requested
      requires FindFriendship(initiator, requested).None?
      requires FindSpecificFriendshipRequest(initiator, requested).None?
      requires FindSpecificFriendshipRequest(requested, initiator).None?
      modifies this`requests, this`nextRequestId
      ensures Valid()
      ensures requests == old(requests) + [FriendRequest(old(nextRequestId), initiator, requested, now, false)]
    {
      var friendRequest := FriendRequest(nextRequestId, initiator, requested, now, false);
      forall w | w in requests
        ensures !w.Between(initiator, requested)
      {
        assert !(w.initiator == initiator && w.requested == requested);
        assert !(w.initiator == requested && w.requested == initiator);
      }
      SendKeepsConsistent(friendships, requests, friendRequest);
      ghost var before := requests;
      requests := requests + [friendRequest];
      nextRequestId := nextRequestId + 1;
      assert KeysValid() by {
        assert forall q :: q in requests ==> q in before || q == friendRequest;
      }
    }

    /**
     * Turns a pending request into a friendship between its initiator and
     * its requested user: the request row goes, then the friendship row comes.
     */
    method AcceptRequest(friendRequest: FriendRequest, now: Timestamp)
      requires Valid()
      requires friendRequest in requests
      requires FindFriendship(friendRequest.initiator, friendRequest.requested).None?
      modifies this`friendships, this`requests, this`nextFriendshipId, this`nextRequestId
      ensures Valid()
      ensures requests == WithoutRequest(old(requests), friendRequest.id)
      ensures friendships == old(friendships) + [Friendship(old(nextFriendshipId), friendRequest.initiator, friendRequest.requested, now)]
      ensures FindFriendshipRequest(friendRequest.initiator, friendRequest.requested).None?
      ensures FindFriendship(friendRequest.initiator, friendRequest.requested).Some?
    {
      var friendship := Friendship(nextFriendshipId, friendRequest.initiator, friendRequest.requested, now);
      AcceptKeepsConsistent(friendships, requests, friendRequest, friendship);
      requests := WithoutRequest(requests, friendRequest.id);
      friendships := friendships + [friendship];
      nextFriendshipId := nextFriendshipId + 1;
      assert friendship in friendships;
    }

    /** Removes the friendship between the two users, whichever side each is on. */
    method RemoveFriendShip(userA: Id, userB: Id) returns (r: Outcome<FriendsError>)
      requires Valid()
      modifies this`friendships
      ensures Valid()
      ensures old(FindFriendship(userA, userB)).None? ==>
        r == Fail(FriendshipDoesNotExist) && friendships == old(friendships)
      ensures old(FindFriendship(userA, userB)).Some? ==>
        && r == Pass
        && friendships == WithoutFriendship(old(friendships), old(FindFriendship(userA, userB)).value.id)
        && FindFriendship(userA, userB).None?
      ensures forall f :: f in old(friendships) && !f.Between(userA, userB) ==> f in friendships
    {
      var friendShip := FindFriendship(userA, userB);
      if friendShip.None? {
        return Fail(FriendshipDoesNotExist);
      }
      var gone := friendShip.value;
      friendships := WithoutFriendship(friendships, gone.id);
      forall f | f in friendships
        ensures !f.Between(userA, userB)
      {
        assert f != gone;
      }
      r := Pass;
    }

    /** Deletes the pending request between the two users, in either direction. */
    method DeleteFriendShipRequest(userA: Id, userB: Id) returns (r: Outcome<FriendsError>)
      requires Valid()
      modifies this`requests
      ensures Valid()
      ensures old(FindFriendshipRequest(userA, userB)).None? ==>
        r == Fail(RequestDoesNotExist) && requests == old(requests)
      ensures old(FindFriendshipRequest(userA, userB)).Some? ==>
        && r == Pass
        && requests == WithoutRequest(old(requests), old(FindFriendshipRequest(userA, userB)).value.id)
        && FindFriendshipRequest(userA, userB).None?
      ensures forall q :: q in old(requests) && !q.Between(userA, userB) ==> q in requests
    {
      var friendRequest := FindFriendshipRequest(userA, userB);
      if friendRequest.None? {
        return Fail(RequestDoesNotExist);
      }
      var gone := friendRequest.value;
      requests := WithoutRequest(requests, gone.id);
      forall q | q in requests
        ensures !q.Between(userA, userB)
      {
        assert q != gone;
      }
      r := Pass;
    }
  }
}
