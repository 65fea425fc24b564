/**
 * The entity-mutation fan-out broker (src/utils/subscribers.ts): every
 * connected socket registers a `Client` with optional operations, filter and
 * pipe; the three store hooks hand each insert, update and remove to every
 * client in registration order, and each client decides on its own whether
 * to emit on its socket. Everything emitted on any socket is recorded, in
 * order, in the broker's `emitted` log.
 */
module Subscribers {
  import opened Tables

  datatype EntityOperation = Insert | Remove | Update

  /** Connections are told apart by an id. */
  type SocketId = nat

  /**
   * What a socket asked for; a missing field is `None`. Filters and pipes
   * may be asynchronous in the source: here they stand for the awaited value.
   * A pipe hands back an entity of the same type.
   */
  datatype WsSubscriberOptions<!T> = WsSubscriberOptions(
    operations: Option<seq<EntityOperation>>,
    filter: Option<(T, EntityOperation) -> bool>,
    pipe: Option<(T, EntityOperation) -> T>)

  /** `options ?? {}`. */
  function NoOptions<T>(): WsSubscriberOptions<T>
  {
    WsSubscriberOptions(None, None, None)
  }

  /** One `socket.emit(tag, payload)`. */
  datatype Emit<T> = Emit(socket: SocketId, tag: string, payload: T)

  /** What the store reports; update and remove events may come without an entity. */
  datatype EntityEvent<T> =
    | Inserted(entity: T)
    | Updated(updated: Option<T>)
    | Removed(removed: Option<T>)

  class Client<T> {
    const socket: SocketId
    const options: WsSubscriberOptions<T>

    constructor (socket: SocketId, options: WsSubscriberOptions<T>)
      ensures this.socket == socket && this.options == options
    {
      this.socket := socket;
      this.options := options;
    }

    /** No operations list accepts every operation; a list accepts exactly its members. */
    function OperationIncluded(operation: EntityOperation): (b: bool)
      ensures options.operations.None? ==> b
      ensures options.operations.Some? ==> (b <==> operation in options.operations.value)
    {
      match options.operations
      case None => true
      case Some(ops) => operation in ops
    }

    /** Without a filter everything passes. */
    function CanPass(entity: T, operation: EntityOperation): (b: bool)
      ensures options.filter.None? ==> b
      ensures options.filter.Some? ==> b == options.filter.value(entity, operation)
    {
      match options.filter
      case None => true
      case Some(filter) => filter(entity, operation)
    }

    /** Without a pipe the entity is sent as it is. */
    function Process(entity: T, operation: EntityOperation): (r: T)
      ensures options.pipe.None? ==> r == entity
      ensures options.pipe.Some? ==> r == options.pipe.value(entity, operation)
    {
      match options.pipe
      case None => entity
      case Some(pipe) => pipe(entity, operation)
    }

    /** An insert is sent as 'add' when inserts are wanted and the filter lets it through. */
    function AfterInsert(entity: T): (r: seq<Emit<T>>)
      ensures r == [] || r == [Emit(socket, "add", Process(entity, Insert))]
      ensures r != [] <==> OperationIncluded(Insert) && CanPass(entity, Insert)
    {
      if !OperationIncluded(Insert) then []
      else if !CanPass(entity, Insert) then []
      else [Emit(socket, "add", Process(entity, Insert))]
    }

    /**
     * An update, as the code is written: only a missing entity stops it.
     * The operations list is not consulted, the filter's verdict is an
     * un-awaited promise (always truthy), and the pipe is told 'remove'.
     */
    function AfterUpdate(entity: Option<T>): (r: seq<Emit<T>>)
      ensures r != [] <==> entity.Some?
      ensures entity.Some? ==> r == [Emit(socket, "update", Process(entity.value, Remove))]
    {
      match entity
      case None => []
      case Some(e) => [Emit(socket, "update", Process(e, Remove))]
    }

    /**
     * An update as the other two hooks treat their events: sent when updates
     * are wanted and the filter lets it through, piped as an update.
     */
    function AfterUpdateIntended(entity: Option<T>): (r: seq<Emit<T>>)
      ensures r == [] || (entity.Some? && r == [Emit(socket, "update", Process(entity.value, Update))])
      ensures r != [] <==> entity.Some? && OperationIncluded(Update) && CanPass(entity.value, Update)
    {
      if !OperationIncluded(Update) then []
      else match entity
        case None => []
        case Some(e) => if CanPass(e, Update) then [Emit(socket, "update", Process(e, Update))] else []
    }

    /**
     * A removal is sent as 'remove' when removals are wanted, the entity is
     * there and the filter lets it through. The payload is a copy of the
     * entity taken before the store clears its key.
     */
    function BeforeRemove(entity: Option<T>): (r: seq<Emit<T>>)
      ensures r == [] || (entity.Some? && r == [Emit(socket, "remove", Process(entity.value, Remove))])
      ensures r != [] <==> OperationIncluded(Remove) && entity.Some? && CanPass(entity.value, Remove)
    {
      if !OperationIncluded(Remove) then []
      else match entity
        case None => []
        case Some(e) => if CanPass(e, Remove) then [Emit(socket, "remove", Process(e, Remove))] else []
    }

    /** This client's answer to one store event. */
    function Handle(event: EntityEvent<T>): (r: seq<Emit<T>>)
      ensures |r| <= 1
      ensures forall i :: 0 <= i < |r| ==> r[i].socket == socket
      ensures event.Inserted? ==> r == AfterInsert(event.entity)
      ensures event.Updated? ==> r == AfterUpdate(event.updated)
      ensures event.Removed? ==> r == BeforeRemove(event.removed)
    {
      match event
      case Inserted(e) => AfterInsert(e)
      case Updated(e) => AfterUpdate(e)
      case Removed(e) => BeforeRemove(e)
    }
  }

  /** What the clients emit for one event, client after client in registration order. */
  function Broadcast<T>(clients: seq<Client<T>>, event: EntityEvent<T>): (r: seq<Emit<T>>)
    ensures |r| <= |clients|
    decreases |clients|
  {
    if clients == [] then []
    else Broadcast(clients[..|clients| - 1], event) + clients[|clients| - 1].Handle(event)
  }

  /** Everything a broadcast emits goes to the socket of one of the clients. */
  lemma {:induction false} BroadcastSockets<T>(clients: seq<Client<T>>, event: EntityEvent<T>)
    ensures forall e :: e in Broadcast(clients, event) ==> exists k :: 0 <= k < |clients| && clients[k].socket == e.socket
    decreases |clients|
  {
    if clients != [] {
      var init := clients[..|clients| - 1];
      var last := clients[|clients| - 1];
      BroadcastSockets(init, event);
      forall e | e in Broadcast(clients, event)
        ensures exists k :: 0 <= k < |clients| && clients[k].socket == e.socket
      {
        if e in Broadcast(init, event) {
          var k :| 0 <= k < |init| && init[k].socket == e.socket;
          assert clients[k] == init[k];
        } else {
          assert e in last.Handle(event);
          assert clients[|clients| - 1] == last;
        }
      }
    }
  }

  /** One more client adds exactly its own answer at the end. */
  lemma BroadcastStep<T>(clients: seq<Client<T>>, i: nat, event: EntityEvent<T>)
    requires i < |clients|
    ensures Broadcast(clients[..i + 1], event) == Broadcast(clients[..i], event) + clients[i].Handle(event)
  {
    assert clients[..i + 1][..i] == clients[..i];
  }

  lemma BroadcastAll<T>(clients: seq<Client<T>>, event: EntityEvent<T>)
    ensures Broadcast(clients[..|clients|], event) == Broadcast(clients, event)
  {
    assert clients[..|clients|] == clients;
  }

  /** Each client decides independently of the others: broadcasting splits along the registry. */
  lemma {:induction false} BroadcastConcat<T>(a: seq<Client<T>>, b: seq<Client<T>>, event: EntityEvent<T>)
    ensures Broadcast(a + b, event) == Broadcast(a, event) + Broadcast(b, event)
    decreases |b|
  {
    if b == [] {
      assert a + b == a;
    } else {
      var b' := b[..|b| - 1];
      assert (a + b)[..|a + b| - 1] == a + b';
      assert (a + b)[|a + b| - 1] == b[|b| - 1];
      BroadcastConcat(a, b', event);
    }
  }

  /**
   * Every client contributes its own answer in its own place, and that
   * answer is at most one emit: a broadcast sends each client at most one message.
   */
  lemma BroadcastAround<T>(a: seq<Client<T>>, c: Client<T>, b: seq<Client<T>>, event: EntityEvent<T>)
    ensures Broadcast(a + [c] + b, event) == Broadcast(a, event) + c.Handle(event) + Broadcast(b, event)
    ensures |c.Handle(event)| <= 1
  {
    BroadcastConcat(a + [c], b, event);
    BroadcastConcat(a, [c], event);
    assert [c][..0] == [];
  }

  /** Whatever one registered client answers to an event is part of the broadcast. */
  lemma AnswerInBroadcast<T>(clients: seq<Client<T>>, k: nat, event: EntityEvent<T>)
    requires k < |clients|
    ensures forall x :: x in clients[k].Handle(event) ==> x in Broadcast(clients, event)
  {
    var c := clients[k];
    var before := Broadcast(clients[..k], event);
    var after := Broadcast(clients[k + 1..], event);
    assert clients == clients[..k] + [c] + clients[k + 1..];
    BroadcastAround(clients[..k], c, clients[k + 1..], event);
    forall x | x in c.Handle(event)
      ensures x in Broadcast(clients, event)
    {
      var h := c.Handle(event);
      assert x == h[0];
      assert (before + h + after)[|before|] == h[0];
    }
  }

  /** Every client that wants inserts and whose filter passes the entity hears of the insert. */
  lemma InsertReachesInterestedClients<T>(clients: seq<Client<T>>, k: nat, entity: T)
    requires k < |clients|
    requires clients[k].OperationIncluded(Insert) && clients[k].CanPass(entity, Insert)
    ensures Emit(clients[k].socket, "add", clients[k].Process(entity, Insert)) in Broadcast(clients, Inserted(entity))
  {
    var c := clients[k];
    AnswerInBroadcast(clients, k, Inserted(entity));
    assert c.Handle(Inserted(entity)) == [Emit(c.socket, "add", c.Process(entity, Insert))];
  }

  /** A removal reaches every client that wants removals and whose filter passes the entity. */
  lemma RemovalReachesInterestedClients<T>(clients: seq<Client<T>>, k: nat, entity: T)
    requires k < |clients|
    requires clients[k].OperationIncluded(Remove) && clients[k].CanPass(entity, Remove)
    ensures Emit(clients[k].socket, "remove", clients[k].Process(entity, Remove)) in Broadcast(clients, Removed(Some(entity)))
  {
    var c := clients[k];
    AnswerInBroadcast(clients, k, Removed(Some(entity)));
    assert c.Handle(Removed(Some(entity))) == [Emit(c.socket, "remove", c.Process(entity, Remove))];
  }

  /** As the update hook is written, every client hears of every update, piped as a removal. */
  lemma UpdateReachesEveryClient<T>(clients: seq<Client<T>>, k: nat, entity: T)
    requires k < |clients|
    ensures Emit(clients[k].socket, "update", clients[k].Process(entity, Remove)) in Broadcast(clients, Updated(Some(entity)))
  {
    var c := clients[k];
    AnswerInBroadcast(clients, k, Updated(Some(entity)));
    assert c.Handle(Updated(Some(entity))) == [Emit(c.socket, "update", c.Process(entity, Remove))];
  }

  /** The clients left after `socket` disconnects, in their old order. */
  function Connected<T>(clients: seq<Client<T>>, socket: SocketId): (r: seq<Client<T>>)
    ensures forall i :: 0 <= i < |r| ==> r[i] in clients && r[i].socket != socket
    ensures forall i :: 0 <= i < |clients| && clients[i].socket != socket ==> clients[i] in r
  {
    Filter(clients, (c: Client<T>) => c.socket != socket)
  }

  /** A socket that has disconnected receives nothing from later events. */
  lemma NothingAfterDisconnect<T>(clients: seq<Client<T>>, socket: SocketId, event: EntityEvent<T>)
    ensures forall e :: e in Broadcast(Connected(clients, socket), event) ==> e.socket != socket
  {
    var left := Connected(clients, socket);
    BroadcastSockets(left, event);
    forall e | e in Broadcast(left, event)
      ensures e.socket != socket
    {
      var k :| 0 <= k < |left| && left[k].socket == e.socket;
    }
  }

  /** Once a socket has disconnected, disconnecting it again removes nothing. */
  lemma DisconnectTwice<T>(clients: seq<Client<T>>, socket: SocketId)
    ensures Connected(Connected(clients, socket), socket) == Connected(clients, socket)
  {
    FilterAll(Connected(clients, socket), (c: Client<T>) => c.socket != socket);
  }

  /** A client that only wants inserts never hears of a removal. */
  lemma InsertOnlyClientMissesRemovals<T>(c: Client<T>, entity: Option<T>)
    requires c.options.operations == Some([Insert])
    ensures c.BeforeRemove(entity) == []
    ensures c.AfterUpdateIntended(entity) == []
  {
  }

  /** ... but, as the update hook is written, it does hear of every update. */
  lemma InsertOnlyClientHearsUpdates<T>(c: Client<T>, entity: T)
    requires c.options.operations == Some([Insert])
    ensures c.AfterUpdate(Some(entity)) == [Emit(c.socket, "update", c.Process(entity, Remove))]
    ensures c.AfterUpdate(Some(entity)) != c.AfterUpdateIntended(Some(entity))
  {
  }

  /** ... and a filter that rejects an updated entity does not hold it back. */
  lemma RejectingFilterPassesUpdates<T>(c: Client<T>, entity: T)
    requires c.options.filter.Some? && !c.options.filter.value(entity, Update)
    ensures c.AfterUpdate(Some(entity)) != []
    ensures c.AfterUpdateIntended(Some(entity)) == []
  {
  }

  /** No client object is registered twice. */
  ghost predicate Distinct<T>(clients: seq<Client<T>>)
  {
    forall i, j :: 0 <= i < j < |clients| ==> clients[i] != clients[j]
  }

  /** Connecting one more client to the registry prefix extends the survivors by at most that client. */
  lemma ConnectedAppend<T>(registered: seq<Client<T>>, i: nat, socket: SocketId)
    requires i < |registered|
    ensures Connected(registered[..i + 1], socket)
      == Connected(registered[..i], socket) + (if registered[i].socket != socket then [registered[i]] else [])
  {
    assert registered[..i + 1] == registered[..i] + [registered[i]];
    FilterAppend(registered[..i], registered[i], (x: Client<T>) => x.socket != socket);
  }

  /** A client of a registry without repeats is not among the clients before it. */
  lemma NotBefore<T>(registered: seq<Client<T>>, i: nat, socket: SocketId)
    requires Distinct(registered) && i < |registered|
    ensures registered[i] !in Connected(registered[..i], socket)
  {
    assert registered[i] !in registered[..i];
  }

  /**
   * One disconnect handler of `socket`, run on the registry halfway through a
   * disconnect, drops the next client when it belongs to `socket`.
   */
  lemma DisconnectDrops<T>(registered: seq<Client<T>>, i: nat, socket: SocketId)
    requires Distinct(registered) && i < |registered| && registered[i].socket == socket
    ensures RemoveFirst(Connected(registered[..i], socket) + registered[i..], registered[i])
      == Connected(registered[..i + 1], socket) + registered[i + 1..]
  {
    var c := registered[i];
    var kept := Connected(registered[..i], socket);
    var rest := registered[i + 1..];
    ConnectedAppend(registered, i, socket);
    assert Connected(registered[..i + 1], socket) == kept;
    assert registered[i..] == [c] + rest;
    NotBefore(registered, i, socket);
    calc {
      RemoveFirst(kept + registered[i..], c);
      { assert kept + registered[i..] == kept + [c] + rest; }
      RemoveFirst(kept + [c] + rest, c);
      { RemoveFirstSplit(kept, c, rest); }
      kept + rest;
    }
  }

  /** ... and keeps it when it belongs to another socket. */
  lemma DisconnectKeeps<T>(registered: seq<Client<T>>, i: nat, socket: SocketId)
    requires i < |registered| && registered[i].socket != socket
    ensures Connected(registered[..i], socket) + registered[i..]
      == Connected(registered[..i + 1], socket) + registered[i + 1..]
  {
    ConnectedAppend(registered, i, socket);
    assert registered[i..] == [registered[i]] + registered[i + 1..];
  }

  /**
   * The broker of `WsEntitySubscriber`: the registry of clients and the log
   * of everything emitted on their sockets.
   */
  class WsEntitySubscriber<T> {
    var clients: seq<Client<T>>
    var emitted: seq<Emit<T>>

    /** Every registered client is a distinct object. */
    ghost predicate Valid()
      reads this`clients
    {
      Distinct(clients)
    }

    constructor ()
      ensures Valid() && clients == [] && emitted == []
    {
      clients := [];
      emitted := [];
    }

    /** Hands one event to every client, in registration order. */
    method Dispatch(event: EntityEvent<T>)
      modifies this`emitted
      ensures emitted == old(emitted) + Broadcast(clients, event)
    {
      var out: seq<Emit<T>> := [];
      for i := 0 to |clients|
        invariant out == Broadcast(clients[..i], event)
        invariant emitted == old(emitted)
      {
        BroadcastStep(clients, i, event);
        out := out + clients[i].Handle(event);
      }
      BroadcastAll(clients, event);
      emitted := emitted + out;
    }

    method AfterInsert(entity: T)
      modifies this`emitted
      ensures emitted == old(emitted) + Broadcast(clients, Inserted(entity))
    {
      Dispatch(Inserted(entity));
    }

    method AfterUpdate(entity: Option<T>)
      modifies this`emitted
      ensures emitted == old(emitted) + Broadcast(clients, Updated(entity))
    {
      Dispatch(Updated(entity));
    }

    method BeforeRemove(entity: Option<T>)
      modifies this`emitted
      ensures emitted == old(emitted) + Broadcast(clients, Removed(entity))
    {
      Dispatch(Removed(entity));
    }

    /**
     * Registers one new client for `socket`; the result is the client whose
     * disconnect handler `RemoveClient` models.
     */
    method ManageClient(socket: SocketId, options: Option<WsSubscriberOptions<T>>) returns (client: Client<T>)
      requires Valid()
      modifies this`clients
      ensures Valid()
      ensures fresh(client) && client.socket == socket
      ensures client.options == if options.Some? then options.value else NoOptions()
      ensures clients == old(clients) + [client]
    {
      client := new Client(socket, if options.Some? then options.value else NoOptions());
      clients := clients + [client];
    }

    /** The disconnect handler registered for `client`: drops it if it is still registered. */
    method RemoveClient(client: Client<T>)
      requires Valid()
      modifies this`clients
      ensures Valid()
      ensures clients == RemoveFirst(old(clients), client)
      ensures client !in clients
    {
      var index := IndexOf(clients, client);
      if index != -1 {
        ghost var before := clients;
        clients := clients[..index] + clients[index + 1..];
        forall k | 0 <= k < |clients|
          ensures clients[k] != client
        {
          if k >= index {
            assert clients[k] == before[k + 1];
          } else {
            assert clients[k] == before[..index][k];
          }
        }
        forall i, j | 0 <= i < j < |clients|
          ensures clients[i] != clients[j]
        {
          var i' := if i < index then i else i + 1;
          var j' := if j < index then j else j + 1;
          assert clients[i] == before[i'] && clients[j] == before[j'];
        }
      }
    }

    /**
     * `socket` disconnects: every disconnect handler registered on it runs,
     * so each of its clients leaves the registry; the others keep their order.
     * A second disconnect finds nothing left to remove.
     */
    method Disconnect(socket: SocketId)
      requires Valid()
      modifies this`clients
      ensures Valid()
      ensures clients == Connected(old(clients), socket)
      ensures forall i :: 0 <= i < |clients| ==> clients[i].socket != socket
      ensures Connected(clients, socket) == clients
    {
      var registered := clients;
      for i := 0 to |registered|
        invariant Valid()
        invariant clients == Connected(registered[..i], socket) + registered[i..]
      {
        if registered[i].socket == socket {
          DisconnectDrops(registered, i, socket);
          RemoveClient(registered[i]);
        } else {
          DisconnectKeeps(registered, i, socket);
        }
      }
      assert registered[..|registered|] == registered;
      DisconnectTwice(registered, socket);
    }
  }
}
