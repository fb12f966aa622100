/**
 * The message handlers of handlers.go over one live room.  The room is an
 * object the handlers update in place (its players, lists, stage, host and
 * candidates); the host is the key of a player, or none.  What a handler
 * asks of the connection registry (a reply to the sender, an error report,
 * a broadcast, a room assignment) is returned, in order, as a list of
 * effects.  A payload that did not decode arrives as `Err` with the
 * decoder's error text.
 */
module Handlers {
  import opened Base
  import opened Rooms
  import opened Views

  /** One call a handler makes on the connection registry or on the sender. */
  datatype Effect =
    | Reply(event: Event)                                    // sender.Send
    | Report(reason: string)                                 // sender.ReportError
    | Broadcast(roomId: string, event: Event)                // Manager.Broadcast
    | Announce(roomId: string, except: string, joined: Event, changed: Event)
        // BroadcastFunc: every member but `except` gets `joined`, then every member gets `changed`
    | HandOver(roomId: string, changed: Event, newHost: string, update: Event)
        // BroadcastFunc: every member gets `changed`, and the member `newHost` then gets `update`
    | Assign(roomId: string)                                 // Manager.AssignRoom, its error ignored

  datatype JoinPayload = JoinPayload(name: string, roomId: string)
  datatype Movie = Movie(id: Int64, title: string, overview: string, rating: bv32, releaseDate: string, posterPath: string)
  datatype VotePayload = VotePayload(id: string, up: bool)

  /** The list item HandleListAdd builds from a search result: its numeric id becomes decimal text. */
  function ItemOf(m: Movie): (item: ListItem)
    ensures item.id == Itoa(m.id)
  {
    ListItem(Itoa(m.id), m.title, m.overview, m.rating, m.releaseDate, m.posterPath)
  }

  /**
   * Candidates where those before `i` with the id took the vote and the
   * rest are unchanged are the partial vote of CastVote, and keep their ids
   * distinct.
   */
  lemma BumpedPrefix(cs: seq<Candidate>, ds: seq<Candidate>, i: nat, id: string, voter: string, up: bool)
    requires i <= |cs| == |ds|
    requires forall j | 0 <= j < |cs| :: ds[j] == if j < i && cs[j].item.id == id then Bump(cs[j], voter, up) else cs[j]
    ensures ds == BumpAll(cs[..i], id, voter, up) + cs[i..]
    ensures DistinctIds(cs) ==> DistinctIds(ds)
  {
  }

  /**
   * Where the candidate loop stops: at the first candidate `i` the voter is
   * already on, or past the end, the candidates so far are CastVote's.
   */
  lemma StoppedAt(cs: seq<Candidate>, ds: seq<Candidate>, i: nat, id: string, voter: string, up: bool)
    requires i <= |cs| == |ds|
    requires forall j | 0 <= j < |cs| :: ds[j] == if j < i && cs[j].item.id == id then Bump(cs[j], voter, up) else cs[j]
    requires forall j | 0 <= j < i :: !(cs[j].item.id == id && voter in cs[j].votes)
    requires i < |cs| ==> cs[i].item.id == id && voter in cs[i].votes
    ensures DistinctIds(cs) ==> DistinctIds(ds)
    ensures i < |cs| ==> CastVote(cs, id, voter, up) == Repeated(ds, cs[i].item.id)
    ensures i == |cs| ==> CastVote(cs, id, voter, up) == Counted(ds)
  {
    BumpedPrefix(cs, ds, i, id, voter, up);
    if i < |cs| {
      assert FirstRepeat(cs, id, voter) == Some(i);
    } else {
      assert cs[..i] == cs;
    }
  }

  class LiveRoom {
    const id: string
    var host: Option<string>
    var stage: Stage
    var time: int
    var scheduledForDeletion: bool
    var players: map<string, Player>
    var lists: map<string, seq<ListItem>>
    var candidates: seq<Candidate>

    /**
     * A room has a host exactly when it has players, and the host is one of
     * them; players are keyed by their ids; no list holds an id twice; no
     * two candidates share an id.
     */
    predicate Valid()
      reads this
    {
      && (host.None? <==> |players| == 0)
      && (host.Some? ==> host.value in players)
      && (forall k | k in players :: players[k].id == k)
      && (forall k | k in lists :: DistinctItems(lists[k]))
      && DistinctIds(candidates)
    }

    constructor (id: string)
      ensures Valid() && this.id == id
      ensures host == None && stage == Lobby && time == 0 && !scheduledForDeletion
      ensures |players| == 0 && lists == map[] && candidates == []
    {
      this.id := id;
      host := None;
      stage := Lobby;
      time := 0;
      scheduledForDeletion := false;
      players := map[];
      lists := map[];
      candidates := [];
    }

    /** `room.Players[sender.ID]`: the sender's key when the sender is a player, none otherwise. */
    function Sender(senderId: string): Option<string>
      reads this
    {
      if senderId in players then Some(senderId) else None
    }

    /** The host guard: the sender's player is the host (two absent players compare equal). */
    predicate IsHost(senderId: string)
      reads this
    {
      Sender(senderId) == host
    }

    function View(key: string): PlayerView
      requires key in players
      reads this`players, this`host
    {
      ViewOf(key, players[key], host)
    }

    /** NewEventRoomInit for the player `key`. */
    function RoomInitFor(key: string): (e: Event)
      requires key in players
      reads this
      ensures e.RoomInit? && e.id == id && e.stage == stage && e.time == time
      ensures e.user in e.players && e.user.id == players[key].id
      ensures e.user.isHost <==> host == Some(key)
      ensures forall k | k in players :: View(k) in e.players
      ensures forall v | v in e.players :: exists k | k in players :: v == View(k)
      ensures |e.players| <= |players.Keys|
      ensures Valid() ==> |e.players| == |players.Keys|
      ensures key in lists ==> e.list == lists[key]
      ensures key !in lists ==> e.list == []
      ensures |e.candidates| == |e.results| == |candidates|
    {
      PlayerViewsBound(players, host);
      RoomInit(id, View(key), stage, time, ListOf(lists, key), PlayerViews(players, host),
               TransformCandidates(candidates), CollectResults(candidates))
    }

    function PlayersChangedNow(): Event
      reads this
    {
      PlayersChangedOf(players, host)
    }

    /**
     * The part of HandleJoin after the room is found: the sender is assigned
     * to the payload's room, becomes a player (the host if the room had no
     * players), gets the room's state, and the room hears of it.
     */
    method Join(senderId: string, name: string, roomId: string) returns (effects: seq<Effect>)
      requires Valid()
      modifies this`host, this`players
      ensures Valid()
      ensures players == old(players)[senderId := Player(senderId, name, false)]
      ensures host == if |old(players)| == 0 then Some(senderId) else old(host)
      ensures scheduledForDeletion == old(scheduledForDeletion)
      ensures effects == [Assign(roomId), Reply(RoomInitFor(senderId)),
                          Announce(id, senderId, PlayerJoined(senderId, name), PlayersChangedNow())]
    {
      AddPlayer(Player(senderId, name, false));
      effects := [Assign(roomId), Reply(RoomInitFor(senderId)),
                  Announce(id, senderId, PlayerJoined(senderId, name), PlayersChangedNow())];
    }

    /** The player joins under its own id, and becomes host of a room that had no players. */
    method AddPlayer(p: Player)
      requires Valid()
      modifies this`host, this`players
      ensures Valid()
      ensures players == old(players)[p.id := p]
      ensures host == if |old(players)| == 0 then Some(p.id) else old(host)
    {
      if |players| == 0 {
        host := Some(p.id);
      }
      players := players[p.id := p];
      assert p.id in players;
    }

    /** HandleToggleReady: the sender's ready flag takes the payload's value. */
    method ToggleReady(senderId: string, payload: Result<bool>) returns (effects: seq<Effect>)
      requires Valid() && (payload.Ok? ==> senderId in players)
      modifies this`players
      ensures Valid()
      ensures payload.Err? ==> players == old(players) && effects == [Report(payload.error)]
      ensures payload.Ok? ==>
        && players == old(players)[senderId := old(players[senderId]).(ready := payload.value)]
        && effects == [Reply(PlayerUpdated(View(senderId))), Broadcast(id, PlayersChangedNow())]
    {
      if payload.Err? {
        return [Report(payload.error)];
      }
      players := players[senderId := players[senderId].(ready := payload.value)];
      effects := [Reply(PlayerUpdated(View(senderId))), Broadcast(id, PlayersChangedNow())];
    }

    /**
     * HandleLeave once the room is found: the sender's player is removed.
     * When it was the host, some remaining player (any one: the choice
     * follows map order) becomes host and the room is told; a room left
     * without players is scheduled for deletion.
     */
    method Leave(senderId: string) returns (effects: seq<Effect>)
      requires Valid()
      modifies this`host, this`players, this`scheduledForDeletion
      ensures Valid()
      ensures players == old(players) - {senderId}
      ensures old(host) != old(Sender(senderId)) ==> host == old(host)
      ensures scheduledForDeletion == (old(scheduledForDeletion) || |players| == 0)
      ensures old(host) == old(Sender(senderId)) && host.Some? ==>
        effects == [HandOver(id, HostChanged(host.value, players[host.value].name), host.value,
                             PlayerUpdated(View(host.value))),
                    Broadcast(id, PlayersChangedNow())]
      ensures !(old(host) == old(Sender(senderId)) && host.Some?) ==>
        effects == [Broadcast(id, PlayersChangedNow())]
    {
      var deleted := Sender(senderId);
      players := players - {senderId};
      effects := [];
      if host == deleted {
        if |players| == 0 {
          host := None;
        } else {
          var next :| next in players;
          host := Some(next);
          effects := [HandOver(id, HostChanged(next, players[next].name), next, PlayerUpdated(View(next)))];
        }
      }
      effects := effects + [Broadcast(id, PlayersChangedNow())];
      if |players| == 0 {
        scheduledForDeletion := true;
      }
    }

    /**
     * The player loop of HandleChangeStage: each player, in map order, is
     * made not ready, and each time the sender is sent its own player as it
     * stands at that moment.  The sender's player is read on every pass, so
     * the sender must be a player whenever there are any.
     */
    method Unready(senderId: string) returns (updates: seq<Effect>)
      requires Valid() && (|players| > 0 ==> senderId in players)
      modifies this`players
      ensures Valid()
      ensures players.Keys == old(players).Keys
      ensures forall k | k in players :: players[k] == old(players[k]).(ready := false)
      ensures |updates| == |old(players).Keys|
      ensures forall j | 0 <= j < |updates| :: (senderId in players &&
        updates[j] in {Reply(PlayerUpdated(ViewOf(senderId, old(players[senderId]), host))),
                       Reply(PlayerUpdated(View(senderId)))})
      ensures |updates| > 0 ==> updates[|updates| - 1] == Reply(PlayerUpdated(View(senderId)))
    {
      ghost var before := players;
      ghost var own := if senderId in before then before[senderId] else Player(senderId, "", false);
      ghost var first := Reply(PlayerUpdated(ViewOf(senderId, own, host)));
      ghost var last := Reply(PlayerUpdated(ViewOf(senderId, own.(ready := false), host)));
      var ps := players;
      var pending := ps.Keys;
      updates := [];
      while pending != {}
        invariant pending <= before.Keys && ps.Keys == before.Keys
        invariant forall k | k in ps :: ps[k] == if k in pending then before[k] else before[k].(ready := false)
        invariant |updates| + |pending| == |before.Keys|
        invariant forall j | 0 <= j < |updates| :: updates[j] == first || updates[j] == last
        invariant senderId !in pending && |updates| > 0 ==> updates[|updates| - 1] == last
        decreases |pending|
      {
        var k :| k in pending;
        ps := ps[k := ps[k].(ready := false)];
        pending := pending - {k};
        updates := updates + [Reply(PlayerUpdated(ViewOf(senderId, ps[senderId], host)))];
      }
      players := ps;
    }

    /**
     * HandleChangeStage: only the host may move the stage on, and not past
     * the results.  Every player is made not ready, in map order, and the
     * sender is sent its own player once per player; then the room gets the
     * player counts and the new stage (with the candidates collected from
     * the lists, in map order, when voting starts).
     */
    method ChangeStage(senderId: string) returns (effects: seq<Effect>, ghost listOrder: seq<string>)
      requires Valid()
      modifies this`stage, this`players, this`candidates
      ensures Valid()
      ensures !old(IsHost(senderId)) ==>
        effects == [Report(OnlyHost)] && stage == old(stage) && players == old(players) && candidates == old(candidates)
      ensures old(IsHost(senderId)) && old(stage) == Results ==>
        effects == [Report(FinalStage)] && stage == old(stage) && players == old(players) && candidates == old(candidates)
      ensures old(IsHost(senderId)) && old(stage) != Results ==>
        var n := |old(players).Keys|;
        && StageAfter(old(stage)) == Some(stage)
        && players.Keys == old(players).Keys
        && (forall k | k in players :: players[k] == old(players[k]).(ready := false))
        && (stage == Voting ==> IsEnumeration(listOrder, lists.Keys) && candidates == CollectCandidates(lists, listOrder))
        && (stage == Results ==> candidates == old(candidates))
        && |effects| == n + 2
        && (forall j | 0 <= j < n :: senderId in players &&
              effects[j] in {Reply(PlayerUpdated(ViewOf(senderId, old(players[senderId]), host))),
                             Reply(PlayerUpdated(View(senderId)))})
        && (n > 0 ==> effects[n - 1] == Reply(PlayerUpdated(View(senderId))))
        && effects[n] == Broadcast(id, PlayersChangedNow())
        && effects[n + 1] == Broadcast(id, if stage == Voting then StageVoting(TransformCandidates(candidates))
                                           else StageResults(CollectResults(candidates)))
    {
      listOrder := [];
      if !IsHost(senderId) {
        return [Report(OnlyHost)], listOrder;
      }
      if stage == Results {
        return [Report(FinalStage)], listOrder;
      }
      effects, listOrder := Advance(senderId);
    }

    /**
     * HandleChangeStage past its guards: the stage moves on, every player is
     * made not ready (the sender hears of each), and the room gets the
     * player counts and the new stage.
     */
    method Advance(senderId: string) returns (effects: seq<Effect>, ghost listOrder: seq<string>)
      requires Valid() && stage != Results && (|players| > 0 ==> senderId in players)
      modifies this`stage, this`players, this`candidates
      ensures Valid()
      ensures
        var n := |old(players).Keys|;
        && StageAfter(old(stage)) == Some(stage)
        && players.Keys == old(players).Keys
        && (forall k | k in players :: players[k] == old(players[k]).(ready := false))
        && (stage == Voting ==> IsEnumeration(listOrder, lists.Keys) && candidates == CollectCandidates(lists, listOrder))
        && (stage == Results ==> candidates == old(candidates))
        && |effects| == n + 2
        && (forall j | 0 <= j < n :: senderId in players &&
              effects[j] in {Reply(PlayerUpdated(ViewOf(senderId, old(players[senderId]), host))),
                             Reply(PlayerUpdated(View(senderId)))})
        && (n > 0 ==> effects[n - 1] == Reply(PlayerUpdated(View(senderId))))
        && effects[n] == Broadcast(id, PlayersChangedNow())
        && effects[n + 1] == Broadcast(id, if stage == Voting then StageVoting(TransformCandidates(candidates))
                                           else StageResults(CollectResults(candidates)))
    {
      stage := StageAfter(stage).value;
      var updates := Unready(senderId);
      var announce;
      announce, listOrder := OpenStage();
      effects := updates + [Broadcast(id, PlayersChangedNow()), announce];
      assert forall j | 0 <= j < |updates| :: effects[j] == updates[j];
    }

    /**
     * The end of HandleChangeStage, once the stage has moved on: voting
     * starts with the candidates collected from the lists in map order; the
     * results are announced from the candidates as they stand.
     */
    method OpenStage() returns (announce: Effect, ghost listOrder: seq<string>)
      requires Valid() && stage != Lobby
      modifies this`candidates
      ensures Valid()
      ensures stage == Voting ==>
        && IsEnumeration(listOrder, lists.Keys)
        && candidates == CollectCandidates(lists, listOrder)
        && announce == Broadcast(id, StageVoting(TransformCandidates(candidates)))
      ensures stage == Results ==>
        candidates == old(candidates) && announce == Broadcast(id, StageResults(CollectResults(candidates)))
    {
      listOrder := [];
      if stage == Voting {
        var order := RangeOrder(lists);
        listOrder := order;
        candidates := CollectCandidates(lists, order);
        announce := Broadcast(id, StageVoting(TransformCandidates(candidates)));
      } else {
        announce := Broadcast(id, StageResults(CollectResults(candidates)));
      }
    }

    /**
     * HandleSetTimer: the host check comes first (with the same message as
     * the stage change), then the payload; the countdown becomes the given
     * number of seconds as a 64-bit duration.
     */
    method SetTimer(senderId: string, payload: Result<Int64>) returns (effects: seq<Effect>)
      modifies this`time
      ensures !old(IsHost(senderId)) ==> effects == [Report(OnlyHost)] && time == old(time)
      ensures old(IsHost(senderId)) && payload.Err? ==> effects == [Report(payload.error)] && time == old(time)
      ensures old(IsHost(senderId)) && payload.Ok? ==>
        time == TimerDuration(payload.value) && effects == [Broadcast(id, TimerSet(time))]
    {
      if !IsHost(senderId) {
        return [Report(OnlyHost)];
      }
      if payload.Err? {
        return [Report(payload.error)];
      }
      time := TimerDuration(payload.value);
      effects := [Broadcast(id, TimerSet(time))];
    }

    /** HandleListAdd: the item is appended to the sender's list unless an item with its id is there. */
    method ListAdd(senderId: string, payload: Result<Movie>) returns (effects: seq<Effect>)
      requires Valid() && (payload.Ok? ==> senderId in players)
      modifies this`lists
      ensures Valid()
      ensures payload.Err? ==> lists == old(lists) && effects == [Report(payload.error)]
      ensures payload.Ok? && HasItem(old(ListOf(lists, senderId)), Itoa(payload.value.id)) ==>
        lists == old(lists) && effects == [Report(ItemExists)]
      ensures payload.Ok? && !HasItem(old(ListOf(lists, senderId)), Itoa(payload.value.id)) ==>
        && lists == old(lists)[senderId := old(ListOf(lists, senderId)) + [ItemOf(payload.value)]]
        && effects == [Reply(ListChanged(lists[senderId]))]
    {
      if payload.Err? {
        return [Report(payload.error)];
      }
      var item := ItemOf(payload.value);
      var list := ListOf(lists, senderId);
      if HasItem(list, item.id) {
        return [Report(ItemExists)];
      }
      assert DistinctItems(list + [item]) by {
        assert forall j | 0 <= j < |list| :: (list + [item])[j] == list[j];
      }
      lists := lists[senderId := list + [item]];
      effects := [Reply(ListChanged(lists[senderId]))];
    }

    /** HandleListRemove: every item with the id leaves the sender's list, which is stored even when it had no entry. */
    method ListRemove(senderId: string, payload: Result<string>) returns (effects: seq<Effect>)
      requires Valid() && (payload.Ok? ==> senderId in players)
      modifies this`lists
      ensures Valid()
      ensures payload.Err? ==> lists == old(lists) && effects == [Report(payload.error)]
      ensures payload.Ok? ==>
        && lists == old(lists)[senderId := RemoveById(old(ListOf(lists, senderId)), payload.value)]
        && !HasItem(lists[senderId], payload.value)
        && effects == [Reply(ListChanged(lists[senderId]))]
    {
      if payload.Err? {
        return [Report(payload.error)];
      }
      var list := ListOf(lists, senderId);
      RemoveByIdSpec(list, payload.value);
      RemoveByIdDistinct(list, payload.value);
      var updated := RemoveById(list, payload.value);
      lists := lists[senderId := updated];
      effects := [Reply(ListChanged(updated))];
    }

    /**
     * The candidate loop of HandleVote: the vote goes to every candidate
     * with the id until one is found that the voter is already on, whose id
     * is then returned.
     */
    method CountVote(vote: VotePayload, senderId: string) returns (repeated: Option<string>)
      requires Valid()
      modifies this`candidates
      ensures Valid()
      ensures var outcome := CastVote(old(candidates), vote.id, senderId, vote.up);
        && candidates == outcome.candidates
        && (repeated.Some? <==> outcome.Repeated?)
        && (outcome.Repeated? ==> repeated.value == outcome.id)
    {
      ghost var cs := candidates;
      var i := 0;
      while i < |candidates|
        invariant |candidates| == |cs| && 0 <= i <= |cs|
        invariant forall j | 0 <= j < |cs| ::
          candidates[j] == if j < i && cs[j].item.id == vote.id then Bump(cs[j], senderId, vote.up) else cs[j]
        invariant forall j | 0 <= j < i :: !(cs[j].item.id == vote.id && senderId in cs[j].votes)
      {
        if candidates[i].item.id == vote.id {
          if senderId in candidates[i].votes {
            StoppedAt(cs, candidates, i, vote.id, senderId, vote.up);
            return Some(candidates[i].item.id);
          }
          candidates := candidates[i := Bump(candidates[i], senderId, vote.up)];
        }
        i := i + 1;
      }
      StoppedAt(cs, candidates, i, vote.id, senderId, vote.up);
      repeated := None;
    }

    /**
     * HandleVote: only during voting.  The candidate loop is CastVote; a
     * repeated vote is reported and ends the handler.  Otherwise a voter
     * with nothing left to vote on becomes ready and the room is told, and
     * the voter gets the candidates still open to it.
     */
    method Vote(senderId: string, payload: Result<VotePayload>) returns (effects: seq<Effect>)
      requires Valid() && (payload.Ok? && stage == Voting ==> senderId in players)
      modifies this`candidates, this`players
      ensures Valid()
      ensures payload.Err? ==>
        effects == [Report(payload.error)] && candidates == old(candidates) && players == old(players)
      ensures payload.Ok? && stage != Voting ==>
        effects == [Report(NotVoting)] && candidates == old(candidates) && players == old(players)
      ensures payload.Ok? && stage == Voting ==>
        var outcome := CastVote(old(candidates), payload.value.id, senderId, payload.value.up);
        var left := CandidatesLeft(candidates, senderId);
        && candidates == outcome.candidates
        && (outcome.Repeated? ==> players == old(players) && effects == [Report(AlreadyVoted(outcome.id))])
        && (outcome.Counted? && left == [] ==>
              && players == old(players)[senderId := old(players[senderId]).(ready := true)]
              && effects == [Reply(PlayerUpdated(View(senderId))), Broadcast(id, PlayersChangedNow()),
                             Reply(VoteRegistered(TransformCandidates(left)))])
        && (outcome.Counted? && left != [] ==>
              players == old(players) && effects == [Reply(VoteRegistered(TransformCandidates(left)))])
    {
      if payload.Err? {
        return [Report(payload.error)];
      }
      if stage != Voting {
        return [Report(NotVoting)];
      }
      var repeated := CountVote(payload.value, senderId);
      if repeated.Some? {
        return [Report(AlreadyVoted(repeated.value))];
      }
      var left := CandidatesLeft(candidates, senderId);
      effects := [];
      if left == [] {
        players := players[senderId := players[senderId].(ready := true)];
        effects := [Reply(PlayerUpdated(View(senderId))), Broadcast(id, PlayersChangedNow())];
      }
      effects := effects + [Reply(VoteRegistered(TransformCandidates(CandidatesLeft(candidates, senderId))))];
    }
  }

  /**
   * HandleJoin: the payload names the room; an unknown room is reported to
   * the sender and nothing changes.
   */
  method HandleJoin(rooms: map<string, LiveRoom>, senderId: string, payload: Result<JoinPayload>)
    returns (effects: seq<Effect>)
    requires payload.Ok? && payload.value.roomId in rooms ==> rooms[payload.value.roomId].Valid()
    modifies if payload.Ok? && payload.value.roomId in rooms then {rooms[payload.value.roomId]} else {}
    ensures payload.Err? ==> effects == [Report(payload.error)]
    ensures payload.Ok? && payload.value.roomId !in rooms ==> effects == [Report(RoomMissing)]
    ensures payload.Ok? && payload.value.roomId in rooms ==>
      var room := rooms[payload.value.roomId];
      && room.Valid()
      && room.players == old(room.players)[senderId := Player(senderId, payload.value.name, false)]
      && room.host == (if |old(room.players)| == 0 then Some(senderId) else old(room.host))
      && effects == [Assign(payload.value.roomId), Reply(room.RoomInitFor(senderId)),
                     Announce(room.id, senderId, PlayerJoined(senderId, payload.value.name), room.PlayersChangedNow())]
  {
    if payload.Err? {
      return [Report(payload.error)];
    }
    if payload.value.roomId !in rooms {
      return [Report(RoomMissing)];
    }
    var room := rooms[payload.value.roomId];
    effects := room.Join(senderId, payload.value.name, payload.value.roomId);
  }

  /** HandleLeave: the leave callback; a sender whose room is not known changes nothing. */
  method HandleLeave(rooms: map<string, LiveRoom>, senderRoomId: string, senderId: string)
    returns (effects: seq<Effect>)
    requires senderRoomId in rooms ==> rooms[senderRoomId].Valid()
    modifies if senderRoomId in rooms then {rooms[senderRoomId]} else {}
    ensures senderRoomId !in rooms ==> effects == []
    ensures senderRoomId in rooms ==>
      var room := rooms[senderRoomId];
      && room.Valid()
      && room.players == old(room.players) - {senderId}
      && room.scheduledForDeletion == (old(room.scheduledForDeletion) || |room.players| == 0)
      && |effects| > 0 && effects[|effects| - 1] == Broadcast(room.id, room.PlayersChangedNow())
  {
    if senderRoomId !in rooms {
      return [];
    }
    effects := rooms[senderRoomId].Leave(senderId);
  }
}
