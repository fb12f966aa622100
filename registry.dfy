/**
 * The connection registry of pkg/client/client.go: connections by id, room
 * membership lists, a handler table keyed by message type, and the leave
 * callback.  Every manager method is one step taken under the registry lock.
 * A connection's outbound channel is a queue plus a `closed` flag: sending on
 * or closing a closed Go channel panics, so both are preconditions here.
 */
module Registry {
  import opened Base

  const AlreadyInRoom := "Client is already in the room"

  class Client<E, H> {
    var id: string
    var roomId: string              // "" while the client has not joined a room
    var egress: seq<Outgoing<E>>    // everything ever enqueued, in order
    var closed: bool
    var manager: ConnectionManager?<E, H>

    /** NewClient: the caller supplies the generated identifier. */
    constructor (id: string, manager: ConnectionManager?<E, H>)
      ensures this.id == id && roomId == "" && egress == [] && !closed
      ensures this.manager == manager
    {
      this.id := id;
      roomId := "";
      egress := [];
      closed := false;
      this.manager := manager;
    }

    method Send(event: E)
      requires !closed
      modifies this`egress
      ensures egress == old(egress) + [Event(event)]
    {
      egress := egress + [Event(event)];
    }

    method ReportError(reason: string)
      requires !closed
      modifies this`egress
      ensures egress == old(egress) + [Failure(reason)]
    {
      egress := egress + [Failure(reason)];
    }

    /**
     * ReadMessages over the frames the socket delivers: a malformed frame is
     * reported back to this client and skipped, a well-formed one goes to the
     * manager's dispatch (the handler it selects is returned, in order), and
     * the first transport error removes the client and ends the loop.
     */
    method ReadMessages(frames: seq<Frame>) returns (dispatched: seq<Option<H>>)
      requires manager != null && manager.Valid() && !closed
      modifies this`egress, this`closed, manager`clients, manager`rooms, manager`leaves
      ensures manager == old(manager) && manager.Valid()
      ensures closed <==> FirstError(frames) < |frames|
      ensures egress == old(egress) + Reports<E>(frames[..FirstError(frames)])
      ensures var ms := Messages(frames[..FirstError(frames)]);
        |dispatched| == |ms| &&
        forall i | 0 <= i < |ms| :: dispatched[i] == Lookup(manager.handlers, ms[i].kind)
      ensures FirstError(frames) == |frames| ==>
        manager.clients == old(manager.clients) && manager.rooms == old(manager.rooms) &&
        manager.leaves == old(manager.leaves)
      ensures FirstError(frames) < |frames| ==>
        manager.clients == old(manager.clients) - {id} &&
        manager.rooms == old(manager.Evicted(roomId, this)) &&
        manager.leaves == old(manager.leaves) + old(manager.LeaveLog(roomId, this, false))
    {
      var n := FirstError(frames);
      var i := 0;
      dispatched := [];
      while i < n
        invariant 0 <= i <= n && !closed
        invariant manager == old(manager) && manager.Valid() && manager.handlers == old(manager.handlers)
        invariant manager.clients == old(manager.clients) && manager.rooms == old(manager.rooms)
        invariant manager.leaves == old(manager.leaves)
        invariant egress == old(egress) + Reports<E>(frames[..i])
        invariant var ms := Messages(frames[..i]);
          |dispatched| == |ms| &&
          forall j | 0 <= j < |ms| :: dispatched[j] == Lookup(manager.handlers, ms[j].kind)
      {
        StepFrame<E>(frames, i);
        match frames[i] {
          case Malformed(error) =>
            ReportError(error);
          case Message(message) =>
            var handler := manager.HandleMessage(this, message);
            dispatched := dispatched + [handler];
          case TransportError =>
        }
        i := i + 1;
      }
      if n < |frames| {
        manager.RemoveClient(this);
      }
    }
  }

  class ConnectionManager<E, H> {
    var clients: map<string, Client<E, H>>
    var rooms: map<string, seq<Client<E, H>>>
    var handlers: map<string, H>
    /** The calls of the leave callback, in order. */
    ghost var leaves: seq<LeaveCall<Client<E, H>>>

    /** No room lists a client twice (AssignRoom refuses a second entry). */
    ghost predicate Valid()
      reads this
    {
      forall k | k in rooms :: NoDuplicates(rooms[k])
    }

    /** `m.rooms[roomId]`, which is the empty (nil) list when there is no entry. */
    function Members(roomId: string): seq<Client<E, H>>
      reads this
    {
      if roomId in rooms then rooms[roomId] else []
    }

    /** The room table after `c` leaves the room `roomId` that it names as its own. */
    function Evicted(roomId: string, c: Client<E, H>): map<string, seq<Client<E, H>>>
      reads this
    {
      if roomId in rooms then rooms[roomId := Without(rooms[roomId], c)] else rooms
    }

    /** The leave callback runs for `c` exactly when its room has an entry. */
    ghost function LeaveLog(roomId: string, c: Client<E, H>, lockHeld: bool): seq<LeaveCall<Client<E, H>>>
      reads this
    {
      if roomId in rooms then [LeaveCall(c, lockHeld)] else []
    }

    /** Every client listed in a room names that room as its own. */
    ghost predicate Exclusive()
      reads this, Listed()
    {
      forall k, c | k in rooms && c in rooms[k] :: c.roomId == k
    }

    /** No client listed in a room has a closed outbound queue: broadcasting to any room is safe. */
    ghost predicate OpenMembers()
      reads this, Listed()
    {
      forall k, c | k in rooms && c in rooms[k] :: !c.closed
    }

    ghost function Listed(): set<Client<E, H>>
      reads this
    {
      set k, c | k in rooms && c in rooms[k] :: c
    }

    /** NewConnectionManager. */
    constructor ()
      ensures Valid() && Exclusive() && OpenMembers()
      ensures clients == map[] && rooms == map[] && handlers == map[] && leaves == []
    {
      clients := map[];
      rooms := map[];
      handlers := map[];
      leaves := [];
    }

    method AddClient(c: Client<E, H>)
      modifies this`clients, c`manager
      ensures clients == old(clients)[c.id := c]
      ensures c.manager == this
    {
      clients := clients[c.id := c];
      c.manager := this;
    }

    method AssignRoom(c: Client<E, H>, roomId: string) returns (err: Option<string>)
      requires Valid()
      modifies this`rooms, c`roomId
      ensures Valid()
      ensures c in old(Members(roomId)) ==>
        err == Some(AlreadyInRoom) && rooms == old(rooms) && c.roomId == old(c.roomId)
      ensures c !in old(Members(roomId)) ==>
        err == None && c.roomId == roomId && rooms == old(rooms)[roomId := old(Members(roomId)) + [c]]
    {
      if c in Members(roomId) {
        return Some(AlreadyInRoom);
      }
      rooms := rooms[roomId := Members(roomId) + [c]];
      c.roomId := roomId;
      err := None;
    }

    /**
     * Corrected AssignRoom: the client first leaves the room it is listed in,
     * so that it is never a member of two rooms at once.
     */
    method AssignRoomExclusive(c: Client<E, H>, roomId: string) returns (err: Option<string>)
      requires Valid() && Exclusive() && OpenMembers() && !c.closed
      modifies this`rooms, c`roomId
      ensures Valid() && Exclusive() && OpenMembers()
      ensures c in old(Members(roomId)) ==>
        err == Some(AlreadyInRoom) && rooms == old(rooms) && c.roomId == old(c.roomId)
      ensures c !in old(Members(roomId)) ==>
        err == None && c.roomId == roomId &&
        rooms == old(Evicted(c.roomId, c))[roomId := old(Members(roomId)) + [c]]
      ensures forall k | k in rooms && k != roomId :: c !in rooms[k]
    {
      if c in Members(roomId) {
        return Some(AlreadyInRoom);
      }
      rooms := Evicted(c.roomId, c);
      rooms := rooms[roomId := Members(roomId) + [c]];
      c.roomId := roomId;
      err := None;
    }

    /**
     * RemoveClient: drop the id, close the queue, filter the client out of
     * the room it names; the leave callback runs after the lock is released,
     * and only when that room has an entry.
     */
    method RemoveClient(c: Client<E, H>)
      requires Valid() && !c.closed
      modifies this`clients, this`rooms, this`leaves, c`closed
      ensures Valid() && c.closed
      ensures clients == old(clients) - {c.id}
      ensures rooms == old(Evicted(c.roomId, c))
      ensures leaves == old(leaves) + old(LeaveLog(c.roomId, c, false))
      ensures old(Exclusive() && OpenMembers()) ==> Exclusive() && OpenMembers()
    {
      ghost var safe := Exclusive() && OpenMembers();
      ghost var before := rooms;
      clients := clients - {c.id};
      c.closed := true;
      if c.roomId in rooms {
        rooms := rooms[c.roomId := Without(rooms[c.roomId], c)];
        leaves := leaves + [LeaveCall(c, false)];
      }
      if safe {
        forall k, x | k in rooms && x in rooms[k]
          ensures x.roomId == k && !x.closed
        {
          assert x in before[k] && x != c;
        }
      }
    }

    /**
     * DeleteRoom: every member of the room's list is removed in list order
     * (each from the room it names as its own), then the entry is dropped.
     */
    method DeleteRoom(roomId: string)
      requires Valid()
      requires forall c | c in Members(roomId) :: !c.closed
      modifies this`clients, this`rooms, this`leaves, (set c | c in Members(roomId))`closed
      ensures Valid()
      ensures roomId !in old(rooms) ==>
        clients == old(clients) && rooms == old(rooms) && leaves == old(leaves)
      ensures roomId in old(rooms) ==>
        var s := old(rooms[roomId]);
        var owners := old(RoomIds(s));
        && clients == old(clients) - ToSet(old(Ids(s)))
        && rooms == EvictAll(old(rooms), s, owners) - {roomId}
        && leaves == old(leaves) + LeaveCalls(s, owners, old(rooms).Keys, false)
      ensures forall c | c in old(Members(roomId)) :: c.closed
      ensures old(Exclusive() && OpenMembers()) ==> Exclusive() && OpenMembers()
    {
      if roomId !in rooms {
        return;
      }
      var snapshot := rooms[roomId];
      RemoveEach(snapshot);
      rooms := rooms - {roomId};
    }

    /** The loop of DeleteRoom: RemoveClient for each client of `snapshot`, in order. */
    method RemoveEach(snapshot: seq<Client<E, H>>)
      requires Valid() && NoDuplicates(snapshot)
      requires forall c | c in snapshot :: !c.closed
      modifies this`clients, this`rooms, this`leaves, (set c | c in snapshot)`closed
      ensures Valid()
      ensures clients == old(clients) - ToSet(old(Ids(snapshot)))
      ensures rooms == EvictAll(old(rooms), snapshot, old(RoomIds(snapshot)))
      ensures leaves == old(leaves) + LeaveCalls(snapshot, old(RoomIds(snapshot)), old(rooms).Keys, false)
      ensures forall c | c in snapshot :: c.closed
      ensures old(Exclusive() && OpenMembers()) ==> Exclusive() && OpenMembers()
    {
      ghost var owners := RoomIds(snapshot);
      ghost var ids := Ids(snapshot);
      ghost var safe := Exclusive() && OpenMembers();
      ghost var clients0, rooms0, leaves0 := clients, rooms, leaves;
      var i := 0;
      while i < |snapshot|
        invariant RemovedUpTo(snapshot, owners, ids, clients0, rooms0, leaves0, i)
        invariant safe ==> Exclusive() && OpenMembers()
      {
        RemoveNext(snapshot, owners, ids, clients0, rooms0, leaves0, i);
        i := i + 1;
      }
      assert snapshot[..i] == snapshot && owners[..i] == owners && ids[..i] == ids;
    }

    /**
     * The state of the loop of DeleteRoom once the first `i` clients of
     * `snapshot` are removed, starting from `clients0`, `rooms0` and `leaves0`.
     */
    ghost predicate RemovedUpTo(snapshot: seq<Client<E, H>>, owners: seq<string>, ids: seq<string>,
                                clients0: map<string, Client<E, H>>, rooms0: map<string, seq<Client<E, H>>>,
                                leaves0: seq<LeaveCall<Client<E, H>>>, i: nat)
      reads this, set c | c in snapshot
    {
      && |owners| == |snapshot| && |ids| == |snapshot| && i <= |snapshot|
      && Valid()
      && (forall j | 0 <= j < |snapshot| :: snapshot[j].roomId == owners[j] && snapshot[j].id == ids[j])
      && (forall j | 0 <= j < |snapshot| :: snapshot[j].closed <==> j < i)
      && clients == clients0 - ToSet(ids[..i])
      && rooms == EvictAll(rooms0, snapshot[..i], owners[..i])
      && leaves == leaves0 + LeaveCalls(snapshot[..i], owners[..i], rooms0.Keys, false)
    }

    /** One pass of the loop of DeleteRoom: RemoveClient for the next client of the snapshot. */
    method RemoveNext(snapshot: seq<Client<E, H>>, ghost owners: seq<string>, ghost ids: seq<string>,
                      ghost clients0: map<string, Client<E, H>>, ghost rooms0: map<string, seq<Client<E, H>>>,
                      ghost leaves0: seq<LeaveCall<Client<E, H>>>, i: nat)
      requires NoDuplicates(snapshot) && i < |snapshot|
      requires RemovedUpTo(snapshot, owners, ids, clients0, rooms0, leaves0, i)
      modifies this`clients, this`rooms, this`leaves, {snapshot[i]}`closed
      ensures RemovedUpTo(snapshot, owners, ids, clients0, rooms0, leaves0, i + 1)
      ensures old(Exclusive() && OpenMembers()) ==> Exclusive() && OpenMembers()
    {
      RemovalStep(rooms0, snapshot, owners, ids, rooms0.Keys, i);
      MinusTwice(clients0, ToSet(ids[..i]), ids[i]);
      RemoveClient(snapshot[i]);
    }

    method RegisterEventHandler(event: string, handler: H)
      modifies this`handlers
      ensures handlers == old(handlers)[event := handler]
    {
      handlers := handlers[event := handler];
    }

    /** handleMessage: the handler registered for the message's type runs; an unknown type is logged and dropped. */
    method HandleMessage(client: Client<E, H>, message: Incoming) returns (ran: Option<H>)
      ensures message.kind in handlers ==> ran == Some(handlers[message.kind])
      ensures message.kind !in handlers ==> ran == None
    {
      ran := Lookup(handlers, message.kind);
    }

    /** Broadcast: every member of the room, in list order, receives the message once; no entry means no-op. */
    method Broadcast(roomId: string, event: E)
      requires Valid()
      requires forall c | c in Members(roomId) :: !c.closed
      modifies (set c | c in Members(roomId))`egress
      ensures forall c | c in old(Members(roomId)) ::
        c.egress == old(c.egress) + [Event(event)] && c.closed == old(c.closed) && c.roomId == old(c.roomId)
    {
      if roomId !in rooms {
        return;
      }
      var room := rooms[roomId];
      var i := 0;
      while i < |room|
        invariant 0 <= i <= |room|
        invariant forall j | 0 <= j < i :: room[j].egress == old(room[j].egress) + [Event(event)]
        invariant forall j | i <= j < |room| :: room[j].egress == old(room[j].egress)
        invariant forall j | 0 <= j < |room| :: room[j].closed == old(room[j].closed) && room[j].roomId == old(room[j].roomId)
      {
        assert forall j | 0 <= j < |room| && j != i :: room[j] != room[i];
        room[i].Send(event);
        i := i + 1;
      }
    }

    /** BroadcastFunc: the callback runs once per member, in list order; the members it ran on are returned. */
    method BroadcastFunc(roomId: string) returns (calls: seq<Client<E, H>>)
      ensures roomId !in rooms ==> calls == []
      ensures roomId in rooms ==> calls == rooms[roomId]
    {
      calls := [];
      if roomId !in rooms {
        return;
      }
      var room := rooms[roomId];
      for i := 0 to |room|
        invariant calls == room[..i]
      {
        calls := calls + [room[i]];
      }
    }
  }

  /** The room each client names as its own. */
  ghost function RoomIds<E, H>(cs: seq<Client<E, H>>): (r: seq<string>)
    reads set c | c in cs
    ensures |r| == |cs| && forall j | 0 <= j < |cs| :: r[j] == cs[j].roomId
  {
    if cs == [] then [] else [cs[0].roomId] + RoomIds(cs[1..])
  }

  /** The identifier of each client. */
  ghost function Ids<E, H>(cs: seq<Client<E, H>>): (r: seq<string>)
    reads set c | c in cs
    ensures |r| == |cs| && forall j | 0 <= j < |cs| :: r[j] == cs[j].id
  {
    if cs == [] then [] else [cs[0].id] + Ids(cs[1..])
  }

  function ToSet<T>(s: seq<T>): set<T> {
    set x | x in s
  }

  lemma MinusTwice<K, V>(m: map<K, V>, a: set<K>, x: K)
    ensures (m - a) - {x} == m - (a + {x})
  {
  }

  /** Removing one more client of a snapshot extends each running total by that client's share. */
  lemma RemovalStep<C>(rs: map<string, seq<C>>, cs: seq<C>, owners: seq<string>, ids: seq<string>, keys: set<string>, i: nat)
    requires |cs| == |owners| == |ids| && i < |cs|
    ensures EvictAll(rs, cs[..i + 1], owners[..i + 1]) == Evict(EvictAll(rs, cs[..i], owners[..i]), cs[i], owners[i])
    ensures LeaveCalls(cs[..i + 1], owners[..i + 1], keys, false)
      == LeaveCalls(cs[..i], owners[..i], keys, false) + (if owners[i] in keys then [LeaveCall(cs[i], false)] else [])
    ensures ToSet(ids[..i + 1]) == ToSet(ids[..i]) + {ids[i]}
    ensures EvictAll(rs, cs[..i], owners[..i]).Keys == rs.Keys
  {
    assert cs[..i + 1][..i] == cs[..i] && owners[..i + 1][..i] == owners[..i];
    assert ids[..i + 1] == ids[..i] + [ids[i]];
    EvictAllKeys(rs, cs[..i], owners[..i]);
  }

  /** The room table after `c` is filtered out of the room `owner`, if that room has an entry. */
  function Evict<C(==)>(rs: map<string, seq<C>>, c: C, owner: string): map<string, seq<C>> {
    if owner in rs then rs[owner := Without(rs[owner], c)] else rs
  }

  /** The room table after the clients `cs` are removed in order, each from its own room `owners[j]`. */
  function EvictAll<C(==)>(rs: map<string, seq<C>>, cs: seq<C>, owners: seq<string>): map<string, seq<C>>
    requires |cs| == |owners|
  {
    if cs == [] then rs
    else
      var n := |cs| - 1;
      Evict(EvictAll(rs, cs[..n], owners[..n]), cs[n], owners[n])
  }

  lemma {:induction false} EvictAllKeys<C>(rs: map<string, seq<C>>, cs: seq<C>, owners: seq<string>)
    requires |cs| == |owners|
    ensures EvictAll(rs, cs, owners).Keys == rs.Keys
  {
    if cs != [] {
      var n := |cs| - 1;
      EvictAllKeys(rs, cs[..n], owners[..n]);
    }
  }

  /** The leave-callback calls made while removing `cs` in order, when the room keys `keys` exist meanwhile. */
  function LeaveCalls<C>(cs: seq<C>, owners: seq<string>, keys: set<string>, lockHeld: bool): seq<LeaveCall<C>>
    requires |cs| == |owners|
  {
    if cs == [] then []
    else
      var n := |cs| - 1;
      LeaveCalls(cs[..n], owners[..n], keys, lockHeld) + (if owners[n] in keys then [LeaveCall(cs[n], lockHeld)] else [])
  }

  /**
   * As written, AssignRoom leaves a client listed in the room it joined
   * before.  After joining "A", then "B", then disconnecting, the client is
   * still in A's list with a closed queue, so the next Broadcast to "A" would
   * send on a closed channel.
   */
  method StaleMembershipScenario() returns (listedInA: bool, queueClosed: bool, broadcastSafe: bool)
    ensures listedInA && queueClosed && !broadcastSafe
  {
    var m := new ConnectionManager<string, string>();
    var c := new Client<string, string>("c1", m);
    m.AddClient(c);
    var _ := m.AssignRoom(c, "A");
    var _ := m.AssignRoom(c, "B");
    m.RemoveClient(c);
    listedInA := c in m.Members("A");
    queueClosed := c.closed;
    broadcastSafe := forall x | x in m.Members("A") :: !x.closed;
  }

  /** The same sequence with the corrected assignment: the departed client is listed nowhere and every room stays safe to broadcast to. */
  method ExclusiveMembershipScenario() returns (listedInA: bool, listedInB: bool, bothEmpty: bool, broadcastSafe: bool)
    ensures !listedInA && !listedInB && bothEmpty && broadcastSafe
  {
    var m := new ConnectionManager<string, string>();
    var c := new Client<string, string>("c1", m);
    m.AddClient(c);
    var _ := m.AssignRoomExclusive(c, "A");
    var _ := m.AssignRoomExclusive(c, "B");
    m.RemoveClient(c);
    listedInA := c in m.Members("A");
    listedInB := c in m.Members("B");
    bothEmpty := m.Members("A") == [] && m.Members("B") == [];
    broadcastSafe := forall k, x | k in m.rooms && x in m.rooms[k] :: !x.closed;
  }
}
