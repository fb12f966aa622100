# Voting-room server core, modelled in Dafny

The server (repository `stmsh/backend-go`) runs "movie night" rooms over
websockets. Players join a room, and each player builds a list of suggestions.
The host moves the room from the lobby to voting, where every suggestion
becomes a candidate that each player votes up or down once, and from there to
the results, where the candidates are ranked by score. The model covers the
sequential logic behind this:

- **Connection registry.** The `ConnectionManager` holds connections by id,
  the member list of each room, a handler table keyed by message type, and a
  leave callback. It exists in three copies:
  - `pkg/client/client.go` → module `Registry`;
  - `client/client.go` → module `LegacyRegistry`;
  - the root `client.go` → module `RootClient`, whose `routeMessage` is a
    fixed switch instead of a table.

  Each manager method is one atomic step on a class. An outbound channel is
  a queue plus a `closed` flag. Sending on or closing a closed Go channel
  panics, so both are preconditions. The leave-callback calls are kept in a
  ghost log that records whether the lock was still held. The read loop is
  a loop over the frames the socket delivers: a well-formed envelope, a
  malformed one, or a transport error.
- **Room store** (`room.go` → module `Rooms`). `Room` is a value. The
  in-memory repository is a class over a map with `Add`, `Find`, `Update`
  and `Delete`, one cleanup sweep, and one timer tick.
- **Room rules** (`handlers.go` → modules `Views` and `Handlers`).
  - The pure parts are functions in `Views`: the message tags, the stage
    order, player counts, candidate collection, vote counting, the
    candidates left to a voter, the results ranking, and decimal ids.
  - The handlers are methods of a `LiveRoom` object in `Handlers`. They
    update players, lists, stage, host and candidates in place. They
    return, in order, what they ask of the registry: a reply, an error
    report, a broadcast, a room assignment.
  - The host is the key of a player, or none.
- **Wiring** (`main.go` → module `Server`): the handler table with its
  `EnsureRoom` guard, the `IgnorePaths` prefix check, and the `clientID`
  override on connect.
- **HTML escaping** (`public/js/search.js` → module `HtmlEscape`).

Where a Go map is ranged over, the visiting order is arbitrary: a `:|` choice,
or an order satisfying `IsEnumeration` handed out as a ghost result. This
covers the registry's and the store's loops, the choice of the next host, the
order of the ready-reset loop, and the list order in candidate collection.

Where the repository's design notes and the code disagree, the model follows
the code:
- `HandleJoin` never clears `ScheduledForDeletion` when a player joins a
  room scheduled for deletion.
- The host-changed event carries no type tag (`Views.EventType` is empty
  for it).
- The timer decrement is never stored (see Findings).

## Model

| member | source | states |
|---|---|---|
| Registry.Client.constructor | pkg/client/client.go:46-59 | a new connection has the given id, no room, an empty open queue and the given manager |
| Registry.Client.Send | pkg/client/client.go:128-130 | the event is appended to the open queue and nothing else changes |
| Registry.Client.ReportError | pkg/client/client.go:124-126 | the error is appended to the open queue |
| Registry.Client.ReadMessages | pkg/client/client.go:92-122 | reads up to the first transport error; each malformed frame enqueues its error to this client; each well-formed frame selects exactly the handler registered for its type; the first transport error removes the client once (closing it); without one the registry is unchanged |
| Base.Lookup | pkg/client/client.go:221-229 | a handler is found exactly when one is registered for the type, and it is that one |
| Registry.ConnectionManager.constructor | pkg/client/client.go:146-155 | a new registry has no clients, rooms, handlers or leave calls |
| Registry.ConnectionManager.AddClient | pkg/client/client.go:157-163 | the client is stored under its id, replacing any earlier entry; its manager is set; rooms are untouched |
| Registry.ConnectionManager.AssignRoom | pkg/client/client.go:165-177 | a client already in the room's list gets the error and nothing changes; otherwise it is appended to that list, its room is set, and every other room list is unchanged |
| Registry.ConnectionManager.AssignRoomExclusive | pkg/client/client.go:165-177 | corrected assignment: the client first leaves the room it names; afterwards it is in no other room's list, and every listed client names its own room and is open |
| Registry.ConnectionManager.RemoveClient | pkg/client/client.go:195-215 | the id is deleted; the queue is closed, which needs it open; every occurrence of the client leaves its room's list, the rest stay in order; the callback runs once, after the lock is released, only when that room has an entry; if every listed client named its room and was open before, that still holds after |
| Registry.ConnectionManager.DeleteRoom | pkg/client/client.go:179-193 | an unknown room changes nothing; otherwise every member of a snapshot of the list is removed in order (ids gone, queues closed) and the room key is deleted; a callback is logged for a member only when its own room still has an entry at its turn; only the members' close flags change; listed clients stay in their own room and open |
| Registry.ConnectionManager.RemoveEach | pkg/client/client.go:188-190 | removing each client of a snapshot in order: the ids go, each client leaves its own room's list, and the callback log grows by one call per client whose room had an entry; only the snapshot's close flags change; listed clients stay in their own room and open |
| Registry.ConnectionManager.RegisterEventHandler | pkg/client/client.go:217-219 | the handler replaces any earlier one for the tag |
| Registry.ConnectionManager.HandleMessage | pkg/client/client.go:221-229 | exactly the handler registered for the message's type runs, or none |
| Registry.ConnectionManager.Broadcast | pkg/client/client.go:231-244 | every member of the room receives the event exactly once; an unknown room is a no-op; only the members' queues change, and no room or close flag does |
| Registry.ConnectionManager.BroadcastFunc | pkg/client/client.go:246-259 | returns the members the callback is to run on: each member once, in list order; none for an unknown room |
| Registry.StaleMembershipScenario | pkg/client/client.go:165-177 | after joining A, then B, then disconnecting, the client is still in A's list with a closed queue, so broadcasting to A is unsafe |
| Registry.ExclusiveMembershipScenario | pkg/client/client.go:195-215 | with the corrected assignment, the same steps leave the client in neither list, and every client still listed in any room has an open queue |
| LegacyRegistry.Client.constructor | client/client.go:46-59 | a new connection has the given id, no room, an empty open queue |
| LegacyRegistry.Client.Send | client/client.go:125-127 | the event is appended to the open queue |
| LegacyRegistry.Client.ReportError | client/client.go:121-123 | the error is appended to the open queue |
| LegacyRegistry.Client.ReadMessages | client/client.go:91-119 | as in the later copy, but the removal's callback is logged as made under the lock |
| LegacyRegistry.ConnectionManager.constructor | client/client.go:143-151 | a new registry is empty |
| LegacyRegistry.ConnectionManager.AddClient | client/client.go:153-159 | the client is stored under its id and its manager is set |
| LegacyRegistry.ConnectionManager.AssignRoom | client/client.go:161-173 | a duplicate is rejected with no change; otherwise the client is appended and its room set |
| LegacyRegistry.ConnectionManager.RemoveClient | client/client.go:175-194 | the id is deleted, the queue closed, the client filtered out in order; the callback runs under the lock, only when the room key exists |
| LegacyRegistry.ConnectionManager.RegisterEventHandler | client/client.go:196-198 | the handler replaces any earlier one for the tag |
| LegacyRegistry.ConnectionManager.HandleMessage | client/client.go:200-208 | an unregistered type runs no handler; a registered one runs its handler |
| LegacyRegistry.ConnectionManager.Broadcast | client/client.go:210-220 | each member receives the event once; an unknown room is a no-op; only the members' queues change |
| LegacyRegistry.ConnectionManager.BroadcastFunc | client/client.go:222-232 | returns the members the callback is to run on: each member once, in list order |
| RootClient.RouteMessage | client.go:121-145 | without a room, only `join` is routed and everything else is dropped; in a room, a message is routed exactly when it is one of the six room kinds other than `join`, to the handler of its own kind, and anything else is unrecognized |
| RootClient.RoomMessagesRouted | client.go:129-144 | in a room, each of the six room kinds reaches its own handler and `join` falls to the default branch |
| RootClient.Client.constructor | client.go:19-28 | a new connection has the given id, no room and an empty open queue |
| RootClient.Client.Send | client.go:248-250 | the event is appended to the open queue |
| RootClient.Client.ReportError | client.go:244-246 | the error is appended to the open queue |
| RootClient.Client.ReadMessages | client.go:91-119 | a transport error removes the client exactly once and ends the loop; a malformed frame enqueues one error and the loop goes on; each well-formed frame is routed by `RouteMessage` |
| RootClient.ConnectionManager.constructor | client.go:40-46 | a new registry is empty |
| RootClient.ConnectionManager.AddClient | client.go:48-54 | the client is stored under its id and its manager is set |
| RootClient.ConnectionManager.AssignRoom | client.go:56-68 | a duplicate is rejected with no change; otherwise the client is appended and its room set |
| RootClient.ConnectionManager.RemoveClient | client.go:70-89 | the id is deleted, the queue closed, the client filtered out; the callback runs under the lock only when the room key exists |
| Rooms.StageName | room.go:20-26 | a stage's name is one of the three stage strings |
| Rooms.StageNameInjective | room.go:22-26 | two stages have the same name exactly when they are the same stage |
| Rooms.NewRoom | room.go:56-67 | a new room is in the lobby with time 0, not counting down, no host, no players, no lists, no candidates, and is not scheduled for deletion |
| Views.CastVote | handlers.go:258-273 | the candidate loop keeps the number of candidates; it stops early exactly when some candidate with the voted id already has the voter, and reports that id; when it does not stop, candidates with other ids are untouched |
| Base.Without | pkg/client/client.go:203-208 | deleting one client from a list keeps every other element, drops every occurrence of that client, never grows the list, leaves a list without it unchanged and keeps a duplicate-free list duplicate-free |
| Base.WithoutAppend | pkg/client/client.go:203-208 | deleting a client from a concatenation deletes it from each part, so the members that stay keep their order |
| Base.RangeOrder | handlers.go:529 | a `range` over a map visits every key exactly once, in an order the model leaves open |
| Handlers.LiveRoom.RoomInitFor | handlers.go:399-440 | the init event carries the room's id, stage and time; the user's own view, which is among the players, is marked host exactly when the user is the host; the user's own list, or an empty one; a view of every player and nothing else, one entry per player when players are keyed by their ids; one candidate entry and one result per candidate |
| Views.PlayerViewsBound | handlers.go:402-409 | the roster built from the player map has at most one entry per player, and exactly one when every player is stored under its own id |
| Rooms.Scheduled | room.go:141-147 | the ids chosen by the sweep are exactly the stored rooms scheduled for deletion |
| Rooms.Kept | room.go:141-149 | after the sweep, exactly the rooms not scheduled for deletion remain, unchanged |
| Rooms.KeptIdempotent | room.go:141-149 | a second sweep removes nothing |
| Rooms.TickingKeys | room.go:162-165 | the rooms a tick visits are exactly those whose time is positive |
| Rooms.TickBroadcasts | room.go:162-169 | a tick sends one broadcast per ticking room, in visiting order, carrying the time one second lower |
| Rooms.Tick | room.go:162-168 | corrected tick: each ticking room is stored one second lower and every other room is unchanged |
| Rooms.Countdown | room.go:156-172 | with the corrected tick, a room set to s seconds shows s-n seconds after n ticks and stays at zero after that |
| Rooms.InMemoryRoomsRepository.constructor | room.go:81-86 | a new store is empty |
| Rooms.InMemoryRoomsRepository.Add | room.go:88-93 | the room is stored under its id, replacing any room stored there |
| Rooms.InMemoryRoomsRepository.Find | room.go:95-105 | the stored room when present, nothing when absent |
| Rooms.InMemoryRoomsRepository.Update | room.go:107-124 | an absent id gives "Room doesn't exist" and no change; a failing callback's error is returned and nothing is written; on success the result is stored under the id the copy has after the callback ran: when the callback keeps the id, that entry is replaced and all others are unchanged; when it rewrites the id, a new key is added and the entry under the old id stays as it was |
| Rooms.InMemoryRoomsRepository.Delete | room.go:126-131 | only that id is removed |
| Rooms.InMemoryRoomsRepository.CleanupSweep | room.go:141-149 | exactly the scheduled rooms are removed and handed to the registry, each once; all others are kept |
| Rooms.InMemoryRoomsRepository.TimerTick | room.go:161-170 | as written: one broadcast per ticking room with the time one second lower, and the store does not change |
| Rooms.InMemoryRoomsRepository.TimerTickWriteBack | room.go:161-170 | corrected: the same broadcasts, and the store becomes the ticked map |
| Rooms.FrozenTimerScenario | room.go:162-168 | as written, a room at three seconds is announced at two seconds on the third tick and is still stored at three seconds |
| Rooms.CountdownScenario | room.go:156-172 | corrected, the third tick announces zero and stores zero |
| Views.ParseTag | handlers.go:44-51 | a recognised tag names the message kind whose tag it is |
| Views.ParseTagRoundTrip | handlers.go:44-51 | every message kind is recognised from its own tag |
| Views.StageAfter | handlers.go:494-498 | there is a next stage exactly when the stage is not the results |
| Views.StagesAdvance | handlers.go:494-498 | the next stage is never the same stage and never the lobby; the lobby reaches the results in two steps |
| Views.EventType | handlers.go:383-396 | every event carries its type tag except the host-changed event, whose tag is empty |
| Views.ReadyKeys | handlers.go:455-458 | the ready players are exactly those whose flag is set |
| Views.PlayersChangedOf | handlers.go:450-474 | the total is the number of players; the ready count lies between 0 and the total and equals it exactly when every player is ready; the player views are those of the room |
| Views.TransformCandidates | handlers.go:547-557 | one view per candidate, in order, with its item and suggester |
| Views.RemoveById | handlers.go:236-238 | the kept items are exactly the items whose id differs, and none is added |
| Views.RemoveByIdSpec | handlers.go:236-238 | no item with the id is left; a list without it is unchanged |
| Views.RemoveByIdAbsent | handlers.go:236-238 | removing an id the list does not hold returns the list itself |
| Views.RemoveByIdDistinct | handlers.go:236-238 | removal keeps a list's ids distinct |
| Views.RemoveByIdAppend | handlers.go:236-238 | removal works piecewise: the order of the remaining items is kept |
| Views.AddItems | handlers.go:530-541 | one owner's items: only ids not yet candidates are appended, untouched and in list order, so ids stay distinct and every item's id ends up a candidate |
| Views.CollectFrom | handlers.go:528-543 | the same over the owners in visiting order |
| Views.CollectCandidates | handlers.go:526-545 | candidate ids are pairwise distinct; each candidate starts with score 0 and no votes and is an item of its suggester's list; every list item's id is some candidate's |
| Views.CandidatesLeft | handlers.go:566-579 | exactly the candidates whose votes lack the voter are kept |
| Views.CandidatesLeftAppend | handlers.go:566-579 | the candidates left keep their order |
| Views.BumpAll | handlers.go:258-272 | each candidate with the id records the voter and moves its score by one; the others are unchanged |
| Views.FirstRepeat | handlers.go:258-263 | the first candidate with the id on which the voter has already voted, and none before it |
| Views.CastVoteKeepsItems | handlers.go:258-273 | a vote never changes which items or suggesters the candidates have |
| Views.VoteCounted | handlers.go:258-271 | with distinct ids, a fresh vote records the voter, moves the score by exactly +1 or -1, and changes no other candidate |
| Views.VoteRepeated | handlers.go:259-263 | with distinct ids, a repeated vote is refused and leaves the candidates unchanged |
| Views.VoteUnknown | handlers.go:258-273 | a vote for an id no candidate has changes nothing |
| Views.VoteOnce | handlers.go:258-271 | once a vote is counted, the same voter voting again on that candidate is refused |
| Views.Entries | handlers.go:582-588 | one results entry per candidate, carrying its title and score |
| Views.Insert | handlers.go:590-592 | inserting keeps every entry |
| Views.InsertSorted | handlers.go:590-592 | inserting into a ranking keeps it ordered by non-increasing score |
| Views.SortByScore | handlers.go:590-592 | the sort is a permutation ordered by non-increasing score |
| Views.CollectResults | handlers.go:581-595 | one entry per candidate, as a permutation, ordered by non-increasing score |
| Views.Digits | handlers.go:202 | the decimal digits of a number, without a leading zero |
| Views.DigitsRoundTrip | handlers.go:202 | reading the digits back gives the number |
| Views.ItoaRoundTrip | handlers.go:202 | the decimal text of an integer reads back to it |
| Views.ItoaInjective | handlers.go:202 | two integers get the same list-item id exactly when they are equal |
| Views.Wrap64 | handlers.go:188 | 64-bit wrap-around: values in range are kept, others differ by a multiple of 2^64 |
| Views.TimerDuration | handlers.go:188 | seconds times one second, exact when the product fits in 64 bits |
| Views.TimerWrapsAround | handlers.go:188 | a large enough number of seconds wraps to a negative duration |
| Handlers.ItemOf | handlers.go:202-217 | the list item's id is the decimal text of the movie id |
| Handlers.LiveRoom.Join | handlers.go:66-87 | the sender is assigned to the room and becomes a player; it is host exactly when the room had no players; it gets the room state, and the others hear of it and of the new counts |
| Handlers.LiveRoom.AddPlayer | handlers.go:68-76 | the new player is stored under its own id, every earlier player stays, and it becomes host exactly when the room had no players; the room's invariant (host among the players, keys are ids) is kept |
| Handlers.LiveRoom.ToggleReady | handlers.go:90-103 | a payload error is reported with no change; otherwise only the sender's ready flag takes the value, and the sender and the room are told |
| Handlers.LiveRoom.Leave | handlers.go:110-138 | the player is removed; when it was the host, the new host is some remaining player, or none when the room is empty; an empty room is scheduled for deletion |
| Handlers.LiveRoom.Unready | handlers.go:159-162 | every player becomes not ready; the sender is sent its own player once per player |
| Handlers.LiveRoom.ChangeStage | handlers.go:141-172 | a non-host gets "Only host" and a room at the results gets "Final stage reached", both with no change; otherwise the stage moves on, every player becomes not ready, and entering voting collects the candidates |
| Handlers.LiveRoom.Advance | handlers.go:155-171 | past the guards: next stage, players reset, counts broadcast, then the candidates (voting) or the ranking (results) broadcast |
| Handlers.LiveRoom.OpenStage | handlers.go:165-171 | voting opens with the candidates collected from the lists in one map order and broadcasts them; the results stage broadcasts the ranking of the unchanged candidates |
| Handlers.LiveRoom.SetTimer | handlers.go:174-190 | the host check comes before the payload; the time becomes the 64-bit duration of the given seconds |
| Handlers.LiveRoom.ListAdd | handlers.go:192-224 | an id already in the sender's list is rejected with the list unchanged; otherwise the item is appended at the end |
| Handlers.LiveRoom.ListRemove | handlers.go:226-242 | every item with the id leaves the sender's list and the rest keep their order |
| Handlers.LiveRoom.CountVote | handlers.go:257-273 | the candidates become the vote's outcome; a repeat is reported by the id of the first candidate the voter is already on |
| Handlers.StoppedAt | handlers.go:257-273 | where the candidate loop stops (the first candidate the voter is already on, or the end) its candidates are exactly the vote's outcome, and ids stay distinct |
| Handlers.LiveRoom.Vote | handlers.go:244-282 | outside voting an error and no change; a repeat is refused, leaving the candidates as counted up to it; a voter with nothing left becomes ready; the voter gets the candidates still open to it |
| Handlers.HandleJoin | handlers.go:54-88 | a bad payload or an unknown room is reported with no change; otherwise the room's join step |
| Handlers.HandleLeave | handlers.go:105-139 | a sender whose room is unknown changes nothing; otherwise the player leaves and the room is told the counts last |
| Server.Invoke | main.go:120-129 | a guarded handler for a client without a room is refused with "Join room first"; otherwise the wrapped handler runs |
| Server.HandlerTableShape | main.go:130-136 | the table has exactly the seven tags; join is unguarded and the six others are wrapped in EnsureRoom |
| Server.TableDispatch | main.go:120-136 | an unknown type reaches no handler; join always runs; any other known type is refused without a room and runs its own handler with one |
| Server.TableAgreesWithSwitch | main.go:130-136 | for every type but join, the table runs a handler exactly when the root client's switch routes it, and the same one |
| Server.RegisteredTable | main.go:130-136 | registering the seven entries one by one adds the table to the handlers |
| Server.RegisterHandlers | main.go:130-136 | the handler map becomes the earlier one overridden by the table |
| Server.Run | main.go:120-129 | a refusal enqueues "Join room first" to the client and runs nothing; otherwise the same client's message goes to the handler and nothing is enqueued |
| Server.Bypasses | main.go:36-52 | the request skips the middleware exactly when its path starts with some skip prefix |
| Server.Connect | main.go:153-159 | a non-empty `clientID` replaces the generated id, and the client is registered under the id it ends with |
| HtmlEscape.EscapeChar | public/js/search.js:123-129 | the five special characters map to their entities and every other character to itself |
| HtmlEscape.Escape | public/js/search.js:131-133 | the output contains no `<`, `>`, `"` or `'` |
| HtmlEscape.EscapeLength | public/js/search.js:123-133 | the output is longer by 4 per `&`, 3 per `<`, 3 per `>`, 5 per `"` and 4 per `'` |
| HtmlEscape.EscapeAppend | public/js/search.js:131-133 | escaping works character by character, in order |
| HtmlEscape.EscapePlain | public/js/search.js:131-133 | text without special characters passes through unchanged |
| HtmlEscape.UnescapeChar | public/js/search.js:123-129 | each table entry reads back to its character |
| HtmlEscape.EscapeRoundTrip | public/js/search.js:123-133 | reading the entities back gives the original text |
| HtmlEscape.EscapeTwice | public/js/search.js:131-133 | escaping is not idempotent: `&` is escaped again on every pass |

## Left out

- Handlers.LiveRoom.ToggleReady, Handlers.LiveRoom.Unready, Handlers.LiveRoom.Advance, Handlers.LiveRoom.ListAdd, Handlers.LiveRoom.ListRemove, Handlers.LiveRoom.Vote: a sender that is not a player of the room makes Go dereference a nil player and panic (handlers.go:98-99, 200-205, 234-237, 256-276 and the ready-reset loop of HandleChangeStage). The model does not describe the panic; it requires the sender to be a player, which the join protocol guarantees at every call site.
- Goroutines, the locks, blocking on unbuffered channels, tickers, and read/write deadlines. Each registry and store method is one atomic step, and one pass of the cleanup and timer loops stands for each tick. The writer goroutines (`WriteMessages`, `writeMessages`) are not modelled.
- Registry.ConnectionManager.DeleteRoom: models what the method is meant to do, over a snapshot of the member list. As written, it takes the registry lock and then calls `RemoveClient`, which takes the same non-reentrant lock again (a deadlock). It also ranges over the list that `RemoveClient` compacts in place.
- Rooms.InMemoryRoomsRepository.Update: `Room` is a value here. In Go, the copy handed to the callback shares the `Players` and `Lists` maps and the `Candidates` slice with the stored room, so a failing callback's in-place edits are not rolled back. The callback is a function of the copy it is handed; it returns the copy as it edited it and its result (`Edit`).
- Rooms.NewRoom: the room id is a parameter, not a generated UUID. Likewise, client ids and the clock are parameters.
- Websocket I/O and JSON decoding. A frame arrives already decoded, as an envelope, a decoding error, or a transport error. Each handler's payload arrives as a value or as the decoder's error text.
- Serializers, templates, `movies.go` (the TMDB proxy), HTTP routing, cookies and `.env` loading. The HTML renderings of events are not modelled.
- `ListItem.Rating` (a float) and `ReleaseDate` (parsed with `time.Parse`) are opaque fields.
- Handlers: the handlers do not call the registry. They return the calls as effects, and the registry itself is the `Registry` module.
  - `handlers.go` is written against a global room table and a room type with a player-pointer host. The repository's other files do not define that room type.
  - `main.go` imports a `stmsh/pkg/ws` package, which is not part of this model; it is read as the API of `pkg/client/client.go`.
- Handlers.LiveRoom: the host is compared by player key, not by pointer. In Go, a host who sends `join` again replaces its own `Player` object, so the pointer comparison no longer recognises it as host. The model does not capture that loss.
- RootClient.Client.ReadMessages: the room a message is routed under is the client's room when the loop starts. A `join` handled during the loop does not change it, because the handlers' effects are not applied inside the registry model.
- Views.BumpAll: scores are unbounded integers. Go's `int` score could overflow only after 2^63 votes.
- Views.CollectResults: the Go comparator `b.Score - a.Score` could overflow for scores near 2^63; the model compares scores directly. It proves the ranking is a permutation ordered by score, and leaves the relative order of equal scores (which `slices.SortFunc` does not fix) unspecified.
- Registry.ConnectionManager.BroadcastFunc: the callback is not executed; the method returns the members it would run on, in order. The handlers' effects describe what each callback sends.
- LegacyRegistry.ConnectionManager.BroadcastFunc: the callback is not executed, as in the later copy; the method returns the members it would run on, in list order.
- Registry.Client.ReadMessages: a dispatched handler is selected but not run inside the loop. So the clauses "the registry is unchanged without a transport error", the exact queue contents, and the eviction from the room the client had at the start of the loop do not capture what a handler's `AssignRoom`, `Send` or `ReportError` would change.
- LegacyRegistry.Client.ReadMessages: the same as for the later copy: the selected handler is not run inside the loop, so its effects on rooms, queues and the client's room are not part of the loop's contract.

## Findings

| source | as written | input that shows it | evidently intended | confidence | as-written member | corrected member |
|---|---|---|---|---|---|---|
| pkg/client/client.go:165-177 | `AssignRoom` appends the client to the new room's list without removing it from the list of the room it was in | a client joins room A, then room B, then disconnects: `RemoveClient` filters it out of B only and closes its queue, so it stays in A's list and the next `Broadcast` to A sends on a closed channel (a panic) | a client is listed only in the room it names, so every listed client's queue is open | not executed; high | Registry.StaleMembershipScenario | Registry.ConnectionManager.AssignRoomExclusive |
| room.go:162-168 | the timer decrements `room.Time` on the loop's copy of the room and never writes it back to the map | a room set to 3 seconds: each tick broadcasts 2 seconds and the stored time stays at 3 seconds, so the countdown never advances | each tick stores the decremented time, so the countdown reaches zero | not executed; high | Rooms.FrozenTimerScenario | Rooms.InMemoryRoomsRepository.TimerTickWriteBack |
