/**
 * The earlier connection registry of client/client.go.  It has the same
 * state and the same add, assign, remove and dispatch steps as the one in
 * pkg/client/client.go; it differs in that the leave callback runs inside the
 * locked section, Broadcast and BroadcastFunc take no lock at all, and there
 * is no DeleteRoom.  A connection's outbound channel is a queue plus a
 * `closed` flag: sending on or closing a closed Go channel panics, so both
 * are preconditions here.
 */
module LegacyRegistry {
  import opened Base

  const AlreadyInRoom := "Client is already in the room"

  class Client<E, H> {
    var id: string
    var roomId: string              // "" while the client has not joined a room
    var egress: seq<Outgoing<E>>    // everything ever enqueued, in order
    var closed: bool
    var manager: ConnectionManager?<E, H>

    /** NewClient: the caller supplies the generated identifier. */
    constructor (id: string, manager: ConnectionManager?<E, H>)
      ensures this.id == id && roomId == "" && egress == [] && !closed
      ensures this.manager == manager
    {
      this.id := id;
      roomId := "";
      egress := [];
      closed := false;
      this.manager := manager;
    }

    method Send(event: E)
      requires !closed
      modifies this`egress
      ensures egress == old(egress) + [Event(event)]
    {
      egress := egress + [Event(event)];
    }

    method ReportError(reason: string)
      requires !closed
      modifies this`egress
      ensures egress == old(egress) + [Failure(reason)]
    {
      egress := egress + [Failure(reason)];
    }

    /**
     * ReadMessages over the frames the socket delivers: a malformed frame is
     * reported back to this client and skipped, a well-formed one goes to the
     * manager's dispatch (the handler it selects is returned, in order), and
     * the first transport error removes the client and ends the loop.
     */
    method ReadMessages(frames: seq<Frame>) returns (dispatched: seq<Option<H>>)
      requires manager != null && manager.Valid() && !closed
      modifies this`egress, this`closed, manager`clients, manager`rooms, manager`leaves
      ensures manager == old(manager) && manager.Valid()
      ensures closed <==> FirstError(frames) < |frames|
      ensures egress == old(egress) + Reports<E>(frames[..FirstError(frames)])
      ensures var ms := Messages(frames[..FirstError(frames)]);
        |dispatched| == |ms| &&
        forall i | 0 <= i < |ms| :: dispatched[i] == Lookup(manager.handlers, ms[i].kind)
      ensures FirstError(frames) == |frames| ==>
        manager.clients == old(manager.clients) && manager.rooms == old(manager.rooms) &&
        manager.leaves == old(manager.leaves)
      ensures FirstError(frames) < |frames| ==>
        manager.clients == old(manager.clients) - {id} &&
        manager.rooms == old(manager.Evicted(roomId, this)) &&
        manager.leaves == old(manager.leaves) + old(manager.LeaveLog(roomId, this, true))
    {
      var n := FirstError(frames);
      var i := 0;
      dispatched := [];
      while i < n
        invariant 0 <= i <= n && !closed
        invariant manager == old(manager) && manager.Valid() && manager.handlers == old(manager.handlers)
        invariant manager.clients == old(manager.clients) && manager.rooms == old(manager.rooms)
        invariant manager.leaves == old(manager.leaves)
        invariant egress == old(egress) + Reports<E>(frames[..i])
        invariant var ms := Messages(frames[..i]);
          |dispatched| == |ms| &&
          forall j | 0 <= j < |ms| :: dispatched[j] == Lookup(manager.handlers, ms[j].kind)
      {
        StepFrame<E>(frames, i);
        match frames[i] {
          case Malformed(error) =>
            ReportError(error);
          case Message(message) =>
            var handler := manager.HandleMessage(this, message);
            dispatched := dispatched + [handler];
          case TransportError =>
        }
        i := i + 1;
      }
      if n < |frames| {
        manager.RemoveClient(this);
      }
    }
  }

  class ConnectionManager<E, H> {
    var clients: map<string, Client<E, H>>
    var rooms: map<string, seq<Client<E, H>>>
    var handlers: map<string, H>
    /** The calls of the leave callback, in order. */
    ghost var leaves: seq<LeaveCall<Client<E, H>>>

    /** No room lists a client twice (AssignRoom refuses a second entry). */
    ghost predicate Valid()
      reads this
    {
      forall k | k in rooms :: NoDuplicates(rooms[k])
    }

    /** `m.rooms[roomId]`, which is the empty (nil) list when there is no entry. */
    function Members(roomId: string): seq<Client<E, H>>
      reads this
    {
      if roomId in rooms then rooms[roomId] else []
    }

    /** The room table after `c` leaves the room `roomId` that it names as its own. */
    function Evicted(roomId: string, c: Client<E, H>): map<string, seq<Client<E, H>>>
      reads this
    {
      if roomId in rooms then rooms[roomId := Without(rooms[roomId], c)] else rooms
    }

    /** The leave callback runs for `c` exactly when its room has an entry. */
    ghost function LeaveLog(roomId: string, c: Client<E, H>, lockHeld: bool): seq<LeaveCall<Client<E, H>>>
      reads this
    {
      if roomId in rooms then [LeaveCall(c, lockHeld)] else []
    }

    /** NewConnectionManager. */
    constructor ()
      ensures Valid()
      ensures clients == map[] && rooms == map[] && handlers == map[] && leaves == []
    {
      clients := map[];
      rooms := map[];
      handlers := map[];
      leaves := [];
    }

    method AddClient(c: Client<E, H>)
      modifies this`clients, c`manager
      ensures clients == old(clients)[c.id := c]
      ensures c.manager == this
    {
      clients := clients[c.id := c];
      c.manager := this;
    }

    method AssignRoom(c: Client<E, H>, roomId: string) returns (err: Option<string>)
      requires Valid()
      modifies this`rooms, c`roomId
      ensures Valid()
      ensures c in old(Members(roomId)) ==>
        err == Some(AlreadyInRoom) && rooms == old(rooms) && c.roomId == old(c.roomId)
      ensures c !in old(Members(roomId)) ==>
        err == None && c.roomId == roomId && rooms == old(rooms)[roomId := old(Members(roomId)) + [c]]
    {
      if c in Members(roomId) {
        return Some(AlreadyInRoom);
      }
      rooms := rooms[roomId := Members(roomId) + [c]];
      c.roomId := roomId;
      err := None;
    }

    /**
     * RemoveClient: drop the id, close the queue, filter the client out of
     * the room it names; the leave callback runs while the lock is still held,
     * and only when that room has an entry.
     */
    method RemoveClient(c: Client<E, H>)
      requires Valid() && !c.closed
      modifies this`clients, this`rooms, this`leaves, c`closed
      ensures Valid() && c.closed
      ensures clients == old(clients) - {c.id}
      ensures rooms == old(Evicted(c.roomId, c))
      ensures leaves == old(leaves) + old(LeaveLog(c.roomId, c, true))
    {
      clients := clients - {c.id};
      c.closed := true;
      if c.roomId in rooms {
        rooms := rooms[c.roomId := Without(rooms[c.roomId], c)];
        leaves := leaves + [LeaveCall(c, true)];
      }
    }

    method RegisterEventHandler(event: string, handler: H)
      modifies this`handlers
      ensures handlers == old(handlers)[event := handler]
    {
      handlers := handlers[event := handler];
    }

    /** handleMessage: the handler registered for the message's type runs; an unknown type is logged and dropped. */
    method HandleMessage(client: Client<E, H>, message: Incoming) returns (ran: Option<H>)
      ensures message.kind in handlers ==> ran == Some(handlers[message.kind])
      ensures message.kind !in handlers ==> ran == None
    {
      ran := Lookup(handlers, message.kind);
    }

    /** Broadcast: every member of the room, in list order, receives the message once; no entry means no-op. */
    method Broadcast(roomId: string, event: E)
      requires Valid()
      requires forall c | c in Members(roomId) :: !c.closed
      modifies (set c | c in Members(roomId))`egress
      ensures forall c | c in old(Members(roomId)) ::
        c.egress == old(c.egress) + [Event(event)] && c.closed == old(c.closed) && c.roomId == old(c.roomId)
    {
      if roomId !in rooms {
        return;
      }
      var room := rooms[roomId];
      var i := 0;
      while i < |room|
        invariant 0 <= i <= |room|
        invariant forall j | 0 <= j < i :: room[j].egress == old(room[j].egress) + [Event(event)]
        invariant forall j | i <= j < |room| :: room[j].egress == old(room[j].egress)
        invariant forall j | 0 <= j < |room| :: room[j].closed == old(room[j].closed) && room[j].roomId == old(room[j].roomId)
      {
        assert forall j | 0 <= j < |room| && j != i :: room[j] != room[i];
        room[i].Send(event);
        i := i + 1;
      }
    }

    /** BroadcastFunc: the callback runs once per member, in list order; the members it ran on are returned. */
    method BroadcastFunc(roomId: string) returns (calls: seq<Client<E, H>>)
      ensures roomId !in rooms ==> calls == []
      ensures roomId in rooms ==> calls == rooms[roomId]
    {
      calls := [];
      if roomId !in rooms {
        return;
      }
      var room := rooms[roomId];
      for i := 0 to |room|
        invariant calls == room[..i]
      {
        calls := calls + [room[i]];
      }
    }
  }

}
