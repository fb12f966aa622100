/**
 * The room store of room.go: room values kept in a map from room id, the
 * read-modify-write Update, and one pass of each background loop (the
 * cleanup sweep and the one-second timer).  Each repository method is one
 * step taken under the repository lock.  The loops' calls into the
 * connection registry are returned to the caller as data.
 */
module Rooms {
  import opened Base

  /** One second of a Go time.Duration, which counts nanoseconds. */
  const Second := 1_000_000_000
  const RoomMissing := "Room doesn't exist"

  datatype Stage = Lobby | Voting | Results

  /** The stage names on the wire. */
  function StageName(s: Stage): (name: string)
    ensures name in {"lobby", "voting", "results"}
  {
    match s
    case Lobby => "lobby"
    case Voting => "voting"
    case Results => "results"
  }

  lemma StageNameInjective(a: Stage, b: Stage)
    ensures StageName(a) == StageName(b) <==> a == b
  {
  }

  datatype Player = Player(id: string, name: string, ready: bool)

  /**
   * A suggested film.  The float32 rating is kept as its 32 bits and the
   * release date as the text it was parsed from.
   */
  datatype ListItem = ListItem(
    id: string, title: string, overview: string,
    rating: bv32, releaseDate: string, posterPath: string)

  datatype Candidate = Candidate(item: ListItem, suggestedBy: string, score: int, votes: seq<string>)

  /**
   * What an Update callback leaves behind: the copy it was handed, as it
   * edited it through the pointer, and the room (or error) it returns.
   */
  datatype Edit = Edit(copy: Room, result: Result<Room>)

  datatype Room = Room(
    id: string,
    hostId: string,                      // "" while there is no host
    stage: Stage,
    time: int,                           // nanoseconds left on the countdown
    scheduledForDeletion: bool,
    players: map<string, Player>,
    lists: map<string, seq<ListItem>>,
    candidates: seq<Candidate>)

  /** The timer skips a room whose countdown is not positive. */
  predicate Ticking(r: Room) {
    r.time > 0
  }

  /** NewRoom, with the generated identifier supplied by the caller. */
  function NewRoom(id: string): (r: Room)
    ensures r.id == id && r.stage == Lobby && r.hostId == ""
    ensures r.time == 0 && !Ticking(r) && !r.scheduledForDeletion
    ensures r.players == map[] && r.lists == map[] && r.candidates == []
  {
    Room(id, "", Lobby, 0, false, map[], map[], [])
  }

  /** The keys of the rooms the cleanup sweep removes. */
  function Scheduled(m: map<string, Room>): (ks: set<string>)
    ensures ks <= m.Keys
    ensures forall k | k in m :: k in ks <==> m[k].scheduledForDeletion
  {
    set k | k in m && m[k].scheduledForDeletion
  }

  /** The rooms the cleanup sweep keeps. */
  function Kept(m: map<string, Room>): (r: map<string, Room>)
    ensures r.Keys == m.Keys - Scheduled(m)
    ensures forall k | k in r :: r[k] == m[k] && !r[k].scheduledForDeletion
  {
    map k | k in m && !m[k].scheduledForDeletion :: m[k]
  }

  /** A second sweep right after a first one removes nothing more. */
  lemma KeptIdempotent(m: map<string, Room>)
    ensures Kept(Kept(m)) == Kept(m) && Scheduled(Kept(m)) == {}
  {
  }

  /** One timer broadcast: the room id and the countdown value it carries. */
  datatype TimeBroadcast = TimeBroadcast(roomId: string, time: int)

  /** The keys of the rooms the timer visits. */
  function TickingKeys(m: map<string, Room>): (ks: set<string>)
    ensures forall k :: k in ks <==> k in m && Ticking(m[k])
  {
    set k | k in m && Ticking(m[k])
  }

  /** The broadcasts of one tick over the ticking rooms, visited in `order`. */
  function TickBroadcasts(m: map<string, Room>, order: seq<string>): (bs: seq<TimeBroadcast>)
    requires forall k | k in order :: k in m
    ensures |bs| == |order|
    ensures forall j | 0 <= j < |order| :: bs[j] == TimeBroadcast(m[order[j]].id, m[order[j]].time - Second)
  {
    if order == [] then []
    else
      var n := |order| - 1;
      TickBroadcasts(m, order[..n]) + [TimeBroadcast(m[order[n]].id, m[order[n]].time - Second)]
  }

  /** The room table after one tick that stores each decrement. */
  function Tick(m: map<string, Room>): (r: map<string, Room>)
    ensures r.Keys == m.Keys
    ensures forall k | k in m :: r[k] == if Ticking(m[k]) then m[k].(time := m[k].time - Second) else m[k]
  {
    map k | k in m :: if Ticking(m[k]) then m[k].(time := m[k].time - Second) else m[k]
  }

  /** `n` stored ticks in a row. */
  function Ticks(m: map<string, Room>, n: nat): (r: map<string, Room>)
    ensures r.Keys == m.Keys
  {
    if n == 0 then m else Tick(Ticks(m, n - 1))
  }

  /**
   * With the decrement stored, a countdown of `s` whole seconds reaches
   * zero after exactly `s` ticks and then stays at zero; every room keeps
   * its other fields.
   */
  lemma {:induction false} Countdown(m: map<string, Room>, k: string, s: nat, n: nat)
    requires k in m && m[k].time == s * Second
    ensures Ticks(m, n)[k] == m[k].(time := if n <= s then (s - n) * Second else 0)
  {
    if n == 0 {
      assert (s - n) * Second == s * Second;
    } else {
      Countdown(m, k, s, n - 1);
      TickStep(Ticks(m, n - 1), k, m[k], s, n);
    }
  }

  /** One stored tick of a room `n - 1` seconds into a countdown of `s` seconds. */
  lemma TickStep(prev: map<string, Room>, k: string, r: Room, s: nat, n: nat)
    requires 0 < n && k in prev
    requires prev[k] == r.(time := if n - 1 <= s then (s - (n - 1)) * Second else 0)
    ensures Tick(prev)[k] == r.(time := if n <= s then (s - n) * Second else 0)
  {
    if n <= s {
      assert (s - (n - 1)) * Second == (s - n) * Second + Second;
      assert (s - n) * Second >= 0;
    } else if n - 1 == s {
      assert (s - (n - 1)) * Second == 0;
    }
  }

  class InMemoryRoomsRepository {
    var rooms: map<string, Room>

    /** Every room is stored under its own id. */
    predicate KeyedById()
      reads this
    {
      forall k | k in rooms :: rooms[k].id == k
    }

    /** NewInMemoryRoomsRepository. */
    constructor ()
      ensures rooms == map[] && KeyedById()
    {
      rooms := map[];
    }

    /** Add stores the room under its id, replacing any room stored there. */
    method Add(room: Room)
      modifies this
      ensures rooms == old(rooms)[room.id := room]
      ensures old(KeyedById()) ==> KeyedById()
    {
      rooms := rooms[room.id := room];
    }

    /** Find: a copy of the stored room, or nothing. */
    method Find(id: string) returns (r: Option<Room>)
      ensures r.Some? <==> id in rooms
      ensures r.Some? ==> r.value == rooms[id]
    {
      if id !in rooms {
        return None;
      }
      r := Some(rooms[id]);
    }

    /**
     * Update hands `updateFn` a copy of the stored room.  The callback may
     * edit that copy (`copy`) and returns its result; on success the result
     * is stored under the id the copy has AFTER the callback ran.  An absent
     * room or a failing callback leaves the store unchanged.
     */
    method Update(id: string, updateFn: Room -> Edit) returns (err: Option<string>)
      modifies this
      ensures id !in old(rooms) ==> err == Some(RoomMissing) && rooms == old(rooms)
      ensures id in old(rooms) && updateFn(old(rooms[id])).result.Err? ==>
        err == Some(updateFn(old(rooms[id])).result.error) && rooms == old(rooms)
      ensures id in old(rooms) && updateFn(old(rooms[id])).result.Ok? ==>
        var e := updateFn(old(rooms[id]));
        err == None && rooms == old(rooms)[e.copy.id := e.result.value]
      ensures old(KeyedById()) && err == None && updateFn(old(rooms[id])).copy.id == id ==>
        rooms.Keys == old(rooms.Keys) && rooms[id] == updateFn(old(rooms[id])).result.value &&
        forall k | k in rooms && k != id :: rooms[k] == old(rooms[k])
      ensures err == None && updateFn(old(rooms[id])).copy.id != id ==>
        var e := updateFn(old(rooms[id]));
        rooms.Keys == old(rooms.Keys) + {e.copy.id} && rooms[id] == old(rooms[id]) && rooms[e.copy.id] == e.result.value
    {
      if id !in rooms {
        return Some(RoomMissing);
      }
      var room := rooms[id];
      var edit := updateFn(room);
      if edit.result.Err? {
        return Some(edit.result.error);
      }
      rooms := rooms[edit.copy.id := edit.result.value];
      err := None;
    }

    /** Delete removes only the given id. */
    method Delete(id: string)
      modifies this
      ensures rooms == old(rooms) - {id}
      ensures old(KeyedById()) ==> KeyedById()
    {
      rooms := rooms - {id};
    }

    /**
     * One pass of RunRoomCleanup: every room scheduled for deletion is
     * removed, in map order; the ids handed to the connection registry's
     * DeleteRoom are returned, each once.
     */
    method CleanupSweep() returns (deleted: seq<string>)
      modifies this
      ensures IsEnumeration(deleted, Scheduled(old(rooms)))
      ensures rooms == Kept(old(rooms))
    {
      deleted := [];
      var pending := rooms.Keys;
      while pending != {}
        invariant pending <= old(rooms).Keys
        invariant NoDuplicates(deleted)
        invariant forall k | k in deleted :: k in Scheduled(old(rooms)) && k !in pending
        invariant forall k | k in Scheduled(old(rooms)) && k !in pending :: k in deleted
        invariant rooms == map k | k in old(rooms) && (k in pending || !old(rooms)[k].scheduledForDeletion) :: old(rooms)[k]
        decreases |pending|
      {
        var id :| id in pending;
        var room := rooms[id];
        if room.scheduledForDeletion {
          deleted := deleted + [id];
          rooms := rooms - {id};
        }
        pending := pending - {id};
      }
    }

    /**
     * One pass of RunRoomTimer as written: each ticking room is visited in
     * map order and its id is broadcast with the countdown one second
     * lower, but the decrement is made on the loop's copy of the room and
     * never stored, so the store does not change.
     */
    method TimerTick() returns (broadcasts: seq<TimeBroadcast>, ghost order: seq<string>)
      ensures IsEnumeration(order, TickingKeys(rooms))
      ensures broadcasts == TickBroadcasts(rooms, order)
    {
      var keys := RangeOrder(rooms);
      broadcasts := [];
      order := [];
      for i := 0 to |keys|
        invariant NoDuplicates(order) && forall k | k in order :: k in rooms
        invariant forall k | k in order :: k in TickingKeys(rooms) && k in keys[..i]
        invariant forall k | k in keys[..i] && k in TickingKeys(rooms) :: k in order
        invariant broadcasts == TickBroadcasts(rooms, order)
      {
        var room := rooms[keys[i]];
        if room.time <= 0 {
          continue;
        }
        assert keys[..i + 1] == keys[..i] + [keys[i]];
        assert keys[i] !in order by {
          assert forall j | 0 <= j < i :: keys[j] != keys[i];
        }
        room := room.(time := room.time - Second);
        assert (order + [keys[i]])[..|order|] == order;
        broadcasts := broadcasts + [TimeBroadcast(room.id, room.time)];
        order := order + [keys[i]];
      }
      assert keys[..|keys|] == keys;
    }

    /** The corrected timer pass: the same broadcasts, and each decrement is stored. */
    method TimerTickWriteBack() returns (broadcasts: seq<TimeBroadcast>, ghost order: seq<string>)
      modifies this
      ensures IsEnumeration(order, TickingKeys(old(rooms)))
      ensures broadcasts == TickBroadcasts(old(rooms), order)
      ensures rooms == Tick(old(rooms))
    {
      broadcasts, order := TimerTick();
      rooms := Tick(rooms);
    }
  }

  /**
   * As written, a room set to three seconds is broadcast "two seconds left"
   * on the first tick, on the second and on the third, and its stored
   * countdown stays at three seconds.
   */
  method FrozenTimerScenario() returns (third: seq<TimeBroadcast>, stored: int)
    ensures third == [TimeBroadcast("r", 2 * Second)] && stored == 3 * Second
  {
    var repo := new InMemoryRoomsRepository();
    repo.Add(NewRoom("r").(time := 3 * Second));
    var b, o := repo.TimerTick();
    b, o := repo.TimerTick();
    third, o := repo.TimerTick();
    assert TickingKeys(repo.rooms) == {"r"};
    OnlyEnumeration(o, "r");
    stored := repo.rooms["r"].time;
  }

  /** A tick over a table of one room. */
  lemma TickOne(k: string, r: Room)
    ensures Tick(map[k := r]) == map[k := if Ticking(r) then r.(time := r.time - Second) else r]
  {
  }

  /** With the decrement stored, the third tick broadcasts zero and zero is stored. */
  method CountdownScenario() returns (third: seq<TimeBroadcast>, stored: int)
    ensures third == [TimeBroadcast("r", 0)] && stored == 0
  {
    var repo := new InMemoryRoomsRepository();
    repo.Add(NewRoom("r").(time := 3 * Second));
    ghost var r := NewRoom("r");
    assert repo.rooms == map["r" := r.(time := 3 * Second)];
    var b, o := repo.TimerTickWriteBack();
    TickOne("r", r.(time := 3 * Second));
    b, o := repo.TimerTickWriteBack();
    TickOne("r", r.(time := 2 * Second));
    assert TickingKeys(repo.rooms) == {"r"};
    third, o := repo.TimerTickWriteBack();
    TickOne("r", r.(time := Second));
    OnlyEnumeration(o, "r");
    stored := repo.rooms["r"].time;
  }
}
