/**
 * The first connection registry, in the root client.go.  It keeps clients
 * and room lists like the later copies but has no handler table: a
 * well-formed message is routed by a fixed switch on its type tag, and
 * before a client has joined a room only `join` is routed at all.  The leave
 * callback runs while the lock is still held.  A connection's outbound
 * channel is a queue plus a `closed` flag, as in the later copies.
 */
module RootClient {
  import opened Base
  import Views

  const AlreadyInRoom := "Client is already in the room"

  /** Where routeMessage sends a message. */
  datatype Route =
    | Routed(op: Views.Op)       // the handler for that message kind runs
    | Dropped                    // no room yet and not a join: silently ignored
    | Unrecognized(kind: string) // in a room, not one of the six room messages: logged and ignored

  /**
   * routeMessage for a client whose room is `roomId` ("" before it joins one)
   * and a message of type `kind`.
   */
  function RouteMessage(roomId: string, kind: string): (r: Route)
    ensures r.Routed? ==> Views.Tag(r.op) == kind
    ensures roomId == "" ==> (r.Routed? <==> kind == Views.Tag(Views.Join)) && (!r.Routed? ==> r.Dropped?)
    ensures roomId != "" ==> !r.Dropped? && (r.Unrecognized? ==> r.kind == kind)
    ensures roomId != "" ==> (r.Routed? <==> Views.ParseTag(kind).Some? && kind != Views.Tag(Views.Join))
  {
    if roomId == "" then
      if kind == Views.Tag(Views.Join) then Routed(Views.Join) else Dropped
    else
      match Views.ParseTag(kind)
      case Some(op) => if op == Views.Join then Unrecognized(kind) else Routed(op)
      case None => Unrecognized(kind)
  }

  /** In a room, each of the six room messages reaches its own handler, and `join` is not one of them. */
  lemma RoomMessagesRouted(roomId: string, op: Views.Op)
    requires roomId != ""
    ensures op != Views.Join ==> RouteMessage(roomId, Views.Tag(op)) == Routed(op)
    ensures op == Views.Join ==> RouteMessage(roomId, Views.Tag(op)) == Unrecognized("join")
  {
    Views.ParseTagRoundTrip(op);
  }

  class Client<E> {
    var id: string
    var roomId: string              // "" while the client has not joined a room
    var egress: seq<Outgoing<E>>    // everything ever enqueued, in order
    var closed: bool
    var manager: ConnectionManager?<E>

    constructor (id: string, manager: ConnectionManager?<E>)
      ensures this.id == id && roomId == "" && egress == [] && !closed
      ensures this.manager == manager
    {
      this.id := id;
      roomId := "";
      egress := [];
      closed := false;
      this.manager := manager;
    }

    method Send(event: E)
      requires !closed
      modifies this`egress
      ensures egress == old(egress) + [Event(event)]
    {
      egress := egress + [Event(event)];
    }

    method ReportError(reason: string)
      requires !closed
      modifies this`egress
      ensures egress == old(egress) + [Failure(reason)]
    {
      egress := egress + [Failure(reason)];
    }

    /**
     * readMessages over the frames the socket delivers: a malformed frame is
     * reported back to this client and skipped, a well-formed one is routed
     * (the routes are returned, in order), and the first transport error
     * removes the client and ends the loop.
     */
    method ReadMessages(frames: seq<Frame>) returns (routes: seq<Route>)
      requires manager != null && manager.Valid() && !closed
      modifies this`egress, this`closed, manager`clients, manager`rooms, manager`leaves
      ensures manager == old(manager) && manager.Valid()
      ensures closed <==> FirstError(frames) < |frames|
      ensures egress == old(egress) + Reports<E>(frames[..FirstError(frames)])
      ensures var ms := Messages(frames[..FirstError(frames)]);
        |routes| == |ms| &&
        forall i | 0 <= i < |ms| :: routes[i] == RouteMessage(roomId, ms[i].kind)
      ensures FirstError(frames) == |frames| ==>
        manager.clients == old(manager.clients) && manager.rooms == old(manager.rooms) &&
        manager.leaves == old(manager.leaves)
      ensures FirstError(frames) < |frames| ==>
        manager.clients == old(manager.clients) - {id} &&
        manager.rooms == old(manager.Evicted(roomId, this)) &&
        manager.leaves == old(manager.leaves) + old(manager.LeaveLog(roomId, this))
    {
      var n := FirstError(frames);
      var i := 0;
      routes := [];
      while i < n
        invariant 0 <= i <= n && !closed
        invariant manager == old(manager) && manager.Valid()
        invariant manager.clients == old(manager.clients) && manager.rooms == old(manager.rooms)
        invariant manager.leaves == old(manager.leaves)
        invariant egress == old(egress) + Reports<E>(frames[..i])
        invariant var ms := Messages(frames[..i]);
          |routes| == |ms| &&
          forall j | 0 <= j < |ms| :: routes[j] == RouteMessage(roomId, ms[j].kind)
      {
        StepFrame<E>(frames, i);
        match frames[i] {
          case Malformed(error) =>
            ReportError(error);
          case Message(message) =>
            routes := routes + [RouteMessage(roomId, message.kind)];
          case TransportError =>
        }
        i := i + 1;
      }
      if n < |frames| {
        manager.RemoveClient(this);
      }
    }
  }

  class ConnectionManager<E> {
    var clients: map<string, Client<E>>
    var rooms: map<string, seq<Client<E>>>
    /** The calls of the leave callback, in order. */
    ghost var leaves: seq<LeaveCall<Client<E>>>

    /** No room lists a client twice (AssignRoom refuses a second entry). */
    ghost predicate Valid()
      reads this
    {
      forall k | k in rooms :: NoDuplicates(rooms[k])
    }

    /** `m.rooms[roomID]`, which is the empty (nil) list when there is no entry. */
    function Members(roomId: string): seq<Client<E>>
      reads this
    {
      if roomId in rooms then rooms[roomId] else []
    }

    /** The room table after `c` leaves the room `roomId` that it names as its own. */
    function Evicted(roomId: string, c: Client<E>): map<string, seq<Client<E>>>
      reads this
    {
      if roomId in rooms then rooms[roomId := Without(rooms[roomId], c)] else rooms
    }

    /** The leave callback runs for `c`, under the lock, exactly when its room has an entry. */
    ghost function LeaveLog(roomId: string, c: Client<E>): seq<LeaveCall<Client<E>>>
      reads this
    {
      if roomId in rooms then [LeaveCall(c, true)] else []
    }

    /** NewConnectionManager. */
    constructor ()
      ensures Valid()
      ensures clients == map[] && rooms == map[] && leaves == []
    {
      clients := map[];
      rooms := map[];
      leaves := [];
    }

    method AddClient(c: Client<E>)
      modifies this`clients, c`manager
      ensures clients == old(clients)[c.id := c]
      ensures c.manager == this
    {
      clients := clients[c.id := c];
      c.manager := this;
    }

    method AssignRoom(c: Client<E>, roomId: string) returns (err: Option<string>)
      requires Valid()
      modifies this`rooms, c`roomId
      ensures Valid()
      ensures c in old(Members(roomId)) ==>
        err == Some(AlreadyInRoom) && rooms == old(rooms) && c.roomId == old(c.roomId)
      ensures c !in old(Members(roomId)) ==>
        err == None && c.roomId == roomId && rooms == old(rooms)[roomId := old(Members(roomId)) + [c]]
    {
      if c in Members(roomId) {
        return Some(AlreadyInRoom);
      }
      rooms := rooms[roomId := Members(roomId) + [c]];
      c.roomId := roomId;
      err := None;
    }

    /**
     * RemoveClient: drop the id, close the queue, filter the client out of
     * the room it names; the leave callback runs while the lock is still held,
     * and only when that room has an entry.
     */
    method RemoveClient(c: Client<E>)
      requires Valid() && !c.closed
      modifies this`clients, this`rooms, this`leaves, c`closed
      ensures Valid() && c.closed
      ensures clients == old(clients) - {c.id}
      ensures rooms == old(Evicted(c.roomId, c))
      ensures leaves == old(leaves) + old(LeaveLog(c.roomId, c))
    {
      clients := clients - {c.id};
      c.closed := true;
      if c.roomId in rooms {
        rooms := rooms[c.roomId := Without(rooms[c.roomId], c)];
        leaves := leaves + [LeaveCall(c, true)];
      }
    }
  }
}
