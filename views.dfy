/**
 * The value-level rules of handlers.go: the message and event vocabulary,
 * the views the handlers derive from a room (player counts, the candidates
 * still open to a voter, the results table), the collection of candidates
 * from the players' lists, the counting of one vote, and the number
 * formatting and duration arithmetic the handlers rely on.
 */
module Views {
  import opened Base
  import opened Rooms

  // ---------------------------------------------------------------------------
  // Message types

  datatype Op = Join | ToggleReady | NextStage | SetTimer | ListAdd | ListRemove | Vote

  /** The `type` tag each inbound message kind is sent with. */
  function Tag(op: Op): string {
    match op
    case Join => "join"
    case ToggleReady => "ready"
    case NextStage => "next_stage"
    case SetTimer => "set_timer"
    case ListAdd => "list_add"
    case ListRemove => "list_remove"
    case Vote => "vote"
  }

  /** The message kind a tag names, if any. */
  function ParseTag(tag: string): (op: Option<Op>)
    ensures op.Some? ==> Tag(op.value) == tag
  {
    if tag == "join" then Some(Join)
    else if tag == "ready" then Some(ToggleReady)
    else if tag == "next_stage" then Some(NextStage)
    else if tag == "set_timer" then Some(SetTimer)
    else if tag == "list_add" then Some(ListAdd)
    else if tag == "list_remove" then Some(ListRemove)
    else if tag == "vote" then Some(Vote)
    else None
  }

  /** Tags are distinct: every kind is recovered from its own tag. */
  lemma ParseTagRoundTrip(op: Op)
    ensures ParseTag(Tag(op)) == Some(op)
  {
  }

  // ---------------------------------------------------------------------------
  // Stages

  /** nextStageMap: lobby, then voting, then results; results maps to the empty stage name. */
  function StageAfter(s: Stage): (next: Option<Stage>)
    ensures next.None? <==> s == Results
  {
    match s
    case Lobby => Some(Voting)
    case Voting => Some(Results)
    case Results => None
  }

  /** The stage only moves forward: from the lobby, two changes reach the final stage and a third finds none. */
  lemma StagesAdvance(s: Stage)
    ensures StageAfter(s).Some? ==> StageAfter(s).value != s && StageAfter(s).value != Lobby
    ensures s == Lobby ==> StageAfter(StageAfter(s).value) == Some(Results)
  {
  }

  // ---------------------------------------------------------------------------
  // Events

  const OnlyHost := "Only host can change stage"
  const FinalStage := "Can't change stage. Final stage reached"
  const ItemExists := "Item already in the list"
  const NotVoting := "Not in voting stage"

  function AlreadyVoted(candidateId: string): string {
    "Already voted for " + candidateId
  }

  datatype PlayerView = PlayerView(id: string, name: string, ready: bool, isHost: bool)
  datatype CandidateView = CandidateView(item: ListItem, suggestedBy: string)
  datatype ResultsEntry = ResultsEntry(name: string, score: int)

  /**
   * The outbound events.  A list of players built by ranging over the
   * players map is a set here: the map's order is not specified.
   */
  datatype Event =
    | RoomInit(id: string, user: PlayerView, stage: Stage, time: int, list: seq<ListItem>,
               players: set<PlayerView>, candidates: seq<CandidateView>, results: seq<ResultsEntry>)
    | PlayerJoined(id: string, name: string)
    | PlayersChanged(ready: int, total: int, players: set<PlayerView>)
    | PlayerUpdated(player: PlayerView)
    | HostChanged(id: string, name: string)
    | TimerSet(time: int)
    | RoomTime(time: int)
    | ListChanged(list: seq<ListItem>)
    | StageVoting(candidates: seq<CandidateView>)
    | VoteRegistered(candidatesLeft: seq<CandidateView>)
    | StageResults(results: seq<ResultsEntry>)

  /** The `type` field each event is serialised with; the host-changed event is built without one. */
  function EventType(e: Event): (t: string)
    ensures t == "" <==> e.HostChanged?
  {
    match e
    case RoomInit(_, _, _, _, _, _, _, _) => "room:init"
    case PlayerJoined(_, _) => "room:player_joined"
    case PlayersChanged(_, _, _) => "room:players_changed"
    case PlayerUpdated(_) => "player:update"
    case HostChanged(_, _) => ""
    case TimerSet(_) => "room:timer_set"
    case RoomTime(_) => "room:time"
    case ListChanged(_) => "player:list_changed"
    case StageVoting(_) => "room:stage_voting"
    case VoteRegistered(_) => "room:vote_registered"
    case StageResults(_) => "room:stage_results"
  }

  /** How a player is shown: the host flag compares the player's key with the host. */
  function ViewOf(key: string, p: Player, host: Option<string>): PlayerView {
    PlayerView(p.id, p.name, p.ready, host == Some(key))
  }

  function PlayerViews(players: map<string, Player>, host: Option<string>): set<PlayerView> {
    set k | k in players :: ViewOf(k, players[k], host)
  }

  /**
   * One view per player at most; exactly one when every player is stored
   * under its own id, since the views then differ in their ids.
   */
  lemma {:induction false} PlayerViewsBound(players: map<string, Player>, host: Option<string>)
    ensures |PlayerViews(players, host)| <= |players.Keys|
    ensures (forall k | k in players :: players[k].id == k) ==> |PlayerViews(players, host)| == |players.Keys|
    decreases |players.Keys|
  {
    if players.Keys != {} {
      var k :| k in players;
      var rest := players - {k};
      var v := ViewOf(k, players[k], host);
      PlayerViewsBound(rest, host);
      forall w | w in PlayerViews(players, host)
        ensures w in PlayerViews(rest, host) + {v}
      {
        var k' :| k' in players && w == ViewOf(k', players[k'], host);
        if k' != k {
          assert k' in rest;
        }
      }
      forall w | w in PlayerViews(rest, host) + {v}
        ensures w in PlayerViews(players, host)
      {
        if w != v {
          var k' :| k' in rest && w == ViewOf(k', rest[k'], host);
          assert k' in players;
        }
      }
      assert PlayerViews(players, host) == PlayerViews(rest, host) + {v};
      assert players.Keys == rest.Keys + {k};
      if forall k' | k' in players :: players[k'].id == k' {
        forall w | w in PlayerViews(rest, host)
          ensures w.id != k
        {
          var k' :| k' in rest && w == ViewOf(k', rest[k'], host);
        }
        assert v !in PlayerViews(rest, host);
      }
    } else {
      assert PlayerViews(players, host) == {};
    }
  }

  function ReadyKeys(players: map<string, Player>): (ks: set<string>)
    ensures forall k :: k in ks <==> k in players && players[k].ready
  {
    set k | k in players && players[k].ready
  }

  lemma {:induction false} SubsetCard<T>(a: set<T>, b: set<T>)
    requires a <= b
    ensures |a| <= |b|
    ensures |a| == |b| ==> a == b
  {
    if a != {} {
      var x :| x in a;
      SubsetCard(a - {x}, b - {x});
    } else if |b| == 0 {
      assert b == {};
    }
  }

  /**
   * NewEventPlayersChanged: the number of ready players, the number of
   * players, and every player's view.  All are ready exactly when the two
   * counts agree.
   */
  function PlayersChangedOf(players: map<string, Player>, host: Option<string>): (e: Event)
    ensures e.PlayersChanged? && e.players == PlayerViews(players, host)
    ensures e.total == |players.Keys| && 0 <= e.ready <= e.total
    ensures e.ready == e.total <==> forall k | k in players :: players[k].ready
  {
    SubsetCard(ReadyKeys(players), players.Keys);
    assert (forall k | k in players :: players[k].ready) ==> ReadyKeys(players) == players.Keys;
    PlayersChanged(|ReadyKeys(players)|, |players.Keys|, PlayerViews(players, host))
  }

  function TransformCandidates(cs: seq<Candidate>): (vs: seq<CandidateView>)
    ensures |vs| == |cs|
    ensures forall j | 0 <= j < |cs| :: vs[j] == CandidateView(cs[j].item, cs[j].suggestedBy)
  {
    if cs == [] then []
    else [CandidateView(cs[0].item, cs[0].suggestedBy)] + TransformCandidates(cs[1..])
  }

  /** The list of `owner`; a player without an entry has the empty (nil) list. */
  function ListOf(lists: map<string, seq<ListItem>>, owner: string): seq<ListItem> {
    if owner in lists then lists[owner] else []
  }

  predicate HasItem(items: seq<ListItem>, id: string) {
    exists j | 0 <= j < |items| :: items[j].id == id
  }

  predicate DistinctItems(items: seq<ListItem>) {
    forall i, j | 0 <= i < j < |items| :: items[i].id != items[j].id
  }

  /** HandleListRemove's filter: every item with the id goes, the rest stay in order. */
  function RemoveById(items: seq<ListItem>, id: string): (r: seq<ListItem>)
    ensures forall x | x in r :: x in items && x.id != id
    ensures forall x | x in items && x.id != id :: x in r
    ensures |r| <= |items|
  {
    if items == [] then []
    else (if items[0].id == id then [] else [items[0]]) + RemoveById(items[1..], id)
  }

  lemma RemoveByIdSpec(items: seq<ListItem>, id: string)
    ensures !HasItem(RemoveById(items, id), id)
    ensures !HasItem(items, id) ==> RemoveById(items, id) == items
  {
    if !HasItem(items, id) {
      RemoveByIdAbsent(items, id);
    }
  }

  lemma {:induction false} RemoveByIdAbsent(items: seq<ListItem>, id: string)
    requires !HasItem(items, id)
    ensures RemoveById(items, id) == items
  {
    if items != [] {
      RemoveByIdAbsent(items[1..], id);
      assert items == [items[0]] + items[1..];
    }
  }

  /** Removing keeps a list free of repeated ids. */
  lemma {:induction false} RemoveByIdDistinct(items: seq<ListItem>, id: string)
    requires DistinctItems(items)
    ensures DistinctItems(RemoveById(items, id))
  {
    if items != [] {
      RemoveByIdDistinct(items[1..], id);
      var rest := RemoveById(items[1..], id);
      if items[0].id != id {
        var r := [items[0]] + rest;
        forall i, j | 0 <= i < j < |r|
          ensures r[i].id != r[j].id
        {
          assert r[j] == rest[j - 1] && r[j] in rest;
          if i > 0 {
            assert r[i] == rest[i - 1];
          } else {
            var k :| 1 <= k < |items| && items[k] == r[j];
          }
        }
      }
    }
  }

  /** The filter keeps order: it distributes over concatenation. */
  lemma {:induction false} RemoveByIdAppend(a: seq<ListItem>, b: seq<ListItem>, id: string)
    ensures RemoveById(a + b, id) == RemoveById(a, id) + RemoveById(b, id)
  {
    if a == [] {
      assert a + b == b;
    } else {
      assert (a + b)[1..] == a[1..] + b;
      RemoveByIdAppend(a[1..], b, id);
    }
  }

  // ---------------------------------------------------------------------------
  // Candidates

  predicate HasId(cs: seq<Candidate>, id: string) {
    exists j | 0 <= j < |cs| :: cs[j].item.id == id
  }

  predicate DistinctIds(cs: seq<Candidate>) {
    forall i, j | 0 <= i < j < |cs| :: cs[i].item.id != cs[j].item.id
  }

  /** A candidate as collectCandidates creates it: no score and no votes yet. */
  predicate Untouched(c: Candidate) {
    c.score == 0 && c.votes == []
  }

  /**
   * The inner loop of collectCandidates: each of `owner`'s items whose id
   * is not yet a candidate's is appended, untouched, in list order.
   */
  function AddItems(acc: seq<Candidate>, owner: string, items: seq<ListItem>): (r: seq<Candidate>)
    ensures acc <= r
    ensures DistinctIds(acc) ==> DistinctIds(r)
    ensures forall j | |acc| <= j < |r| :: r[j].suggestedBy == owner && Untouched(r[j]) && r[j].item in items
    ensures forall it | it in items :: HasId(r, it.id)
    decreases |items|
  {
    if items == [] then acc
    else
      var it := items[0];
      var next := if HasId(acc, it.id) then acc else acc + [Candidate(it, owner, 0, [])];
      AddOne(acc, owner, it);
      var r := AddItems(next, owner, items[1..]);
      assert forall x | x in items[1..] :: x in items;
      KeepsId(next, r, it.id);
      r
  }

  /** One step of the inner loop of collectCandidates: the item's id is a candidate's afterwards. */
  lemma AddOne(acc: seq<Candidate>, owner: string, it: ListItem)
    ensures var next := if HasId(acc, it.id) then acc else acc + [Candidate(it, owner, 0, [])];
      && acc <= next
      && HasId(next, it.id)
      && (DistinctIds(acc) ==> DistinctIds(next))
      && (forall j | |acc| <= j < |next| :: next[j] == Candidate(it, owner, 0, []))
  {
    if !HasId(acc, it.id) {
      var next := acc + [Candidate(it, owner, 0, [])];
      assert next[|acc|].item.id == it.id;
    }
  }

  /** A candidate list that extends another has every id the other has. */
  lemma KeepsId(a: seq<Candidate>, b: seq<Candidate>, id: string)
    requires a <= b && HasId(a, id)
    ensures HasId(b, id)
  {
    var j :| 0 <= j < |a| && a[j].item.id == id;
    assert b[j] == a[j];
  }

  /** The outer loop of collectCandidates, over the list owners in `order`. */
  function CollectFrom(acc: seq<Candidate>, lists: map<string, seq<ListItem>>, order: seq<string>): (r: seq<Candidate>)
    requires forall k | k in order :: k in lists
    ensures acc <= r
    ensures DistinctIds(acc) ==> DistinctIds(r)
    ensures forall j | |acc| <= j < |r| ::
      r[j].suggestedBy in order && r[j].item in lists[r[j].suggestedBy] && Untouched(r[j])
    ensures forall k, it | k in order && it in lists[k] :: HasId(r, it.id)
    decreases |order|
  {
    if order == [] then acc
    else
      var next := AddItems(acc, order[0], lists[order[0]]);
      var r := CollectFrom(next, lists, order[1..]);
      SuggestedWithin(acc, next, r, lists, order);
      forall it | it in lists[order[0]]
        ensures HasId(r, it.id)
      {
        KeepsId(next, r, it.id);
      }
      r
  }

  /** The candidates appended by one owner's pass and by the later passes were all suggested by an owner in `order`. */
  lemma SuggestedWithin(acc: seq<Candidate>, next: seq<Candidate>, r: seq<Candidate>,
                        lists: map<string, seq<ListItem>>, order: seq<string>)
    requires order != [] && forall k | k in order :: k in lists
    requires acc <= next <= r
    requires forall j | |acc| <= j < |next| ::
      next[j].suggestedBy == order[0] && Untouched(next[j]) && next[j].item in lists[order[0]]
    requires forall j | |next| <= j < |r| ::
      r[j].suggestedBy in order[1..] && r[j].item in lists[r[j].suggestedBy] && Untouched(r[j])
    ensures forall j | |acc| <= j < |r| ::
      r[j].suggestedBy in order && r[j].item in lists[r[j].suggestedBy] && Untouched(r[j])
  {
    forall j | |acc| <= j < |r|
      ensures r[j].suggestedBy in order && r[j].item in lists[r[j].suggestedBy] && Untouched(r[j])
    {
      if j < |next| {
        assert r[j] == next[j];
      } else {
        assert r[j].suggestedBy in order[1..];
      }
    }
  }

  /**
   * collectCandidates: the owners' lists are visited in `order`, which is
   * one order of a range over the lists map.  The result holds one
   * candidate per distinct item id, each untouched and suggested by an
   * owner whose list holds that item.
   */
  function CollectCandidates(lists: map<string, seq<ListItem>>, order: seq<string>): (r: seq<Candidate>)
    requires IsEnumeration(order, lists.Keys)
    ensures DistinctIds(r)
    ensures forall c | c in r :: Untouched(c) && c.suggestedBy in lists && c.item in lists[c.suggestedBy]
    ensures forall k, it | k in lists && it in lists[k] :: HasId(r, it.id)
  {
    CollectFrom([], lists, order)
  }

  /**
   * NewEventVoteRegistered's list: the candidates the voter has not voted
   * on, in candidate order.
   */
  function CandidatesLeft(cs: seq<Candidate>, voter: string): (r: seq<Candidate>)
    ensures forall c | c in r :: c in cs && voter !in c.votes
    ensures forall c | c in cs && voter !in c.votes :: c in r
    ensures |r| <= |cs|
  {
    if cs == [] then []
    else (if voter in cs[0].votes then [] else [cs[0]]) + CandidatesLeft(cs[1..], voter)
  }

  /** Keeping candidate order: the candidates left of a concatenation. */
  lemma {:induction false} CandidatesLeftAppend(a: seq<Candidate>, b: seq<Candidate>, voter: string)
    ensures CandidatesLeft(a + b, voter) == CandidatesLeft(a, voter) + CandidatesLeft(b, voter)
  {
    if a == [] {
      assert a + b == b;
    } else {
      assert (a + b)[1..] == a[1..] + b;
      CandidatesLeftAppend(a[1..], b, voter);
    }
  }

  // ---------------------------------------------------------------------------
  // Voting

  function Delta(up: bool): int {
    if up then 1 else -1
  }

  /** One accepted vote: the voter is recorded and the score moves by one. */
  function Bump(c: Candidate, voter: string, up: bool): Candidate {
    c.(votes := c.votes + [voter], score := c.score + Delta(up))
  }

  /** Every candidate with the id takes the vote. */
  function BumpAll(cs: seq<Candidate>, id: string, voter: string, up: bool): (r: seq<Candidate>)
    ensures |r| == |cs|
    ensures forall j | 0 <= j < |cs| :: r[j] == if cs[j].item.id == id then Bump(cs[j], voter, up) else cs[j]
  {
    if cs == [] then []
    else [if cs[0].item.id == id then Bump(cs[0], voter, up) else cs[0]] + BumpAll(cs[1..], id, voter, up)
  }

  /** The first candidate with the id on which the voter has already voted. */
  function FirstRepeat(cs: seq<Candidate>, id: string, voter: string): (r: Option<nat>)
    ensures r.Some? ==> r.value < |cs| && cs[r.value].item.id == id && voter in cs[r.value].votes
    ensures r.Some? ==> forall j | 0 <= j < r.value :: !(cs[j].item.id == id && voter in cs[j].votes)
    ensures r.None? ==> forall j | 0 <= j < |cs| :: !(cs[j].item.id == id && voter in cs[j].votes)
  {
    if cs == [] then None
    else if cs[0].item.id == id && voter in cs[0].votes then Some(0)
    else match FirstRepeat(cs[1..], id, voter)
      case None => None
      case Some(j) => Some(j + 1)
  }

  datatype VoteOutcome =
    | Counted(candidates: seq<Candidate>)
    | Repeated(candidates: seq<Candidate>, id: string)   // the candidates as left when the loop returned early

  /**
   * The candidate loop of HandleVote as written: candidates are visited in
   * order; a candidate with the id takes the vote, unless the voter is
   * already on it, in which case the loop stops and reports that candidate
   * (the votes taken by earlier candidates stay).
   */
  function CastVote(cs: seq<Candidate>, id: string, voter: string, up: bool): (r: VoteOutcome)
    ensures |r.candidates| == |cs|
    ensures r.Repeated? <==> exists j | 0 <= j < |cs| :: cs[j].item.id == id && voter in cs[j].votes
    ensures r.Repeated? ==> r.id == id
    ensures r.Counted? ==> forall j | 0 <= j < |cs| && cs[j].item.id != id :: r.candidates[j] == cs[j]
  {
    match FirstRepeat(cs, id, voter)
    case None => Counted(BumpAll(cs, id, voter, up))
    case Some(j) => Repeated(BumpAll(cs[..j], id, voter, up) + cs[j..], cs[j].item.id)
  }

  /** A vote never changes which candidates there are. */
  lemma CastVoteKeepsItems(cs: seq<Candidate>, id: string, voter: string, up: bool)
    ensures var r := CastVote(cs, id, voter, up).candidates;
      |r| == |cs| && forall j | 0 <= j < |cs| :: r[j].item == cs[j].item && r[j].suggestedBy == cs[j].suggestedBy
  {
  }

  /**
   * With distinct ids, a vote on a candidate the voter has not voted on
   * records the voter on that candidate, moves its score by exactly one,
   * and changes no other candidate.
   */
  lemma VoteCounted(cs: seq<Candidate>, j: nat, voter: string, up: bool)
    requires DistinctIds(cs) && j < |cs| && voter !in cs[j].votes
    ensures var o := CastVote(cs, cs[j].item.id, voter, up);
      && o.Counted?
      && o.candidates[j].votes == cs[j].votes + [voter]
      && o.candidates[j].score == cs[j].score + Delta(up)
      && forall i | 0 <= i < |cs| && i != j :: o.candidates[i] == cs[i]
  {
    var id := cs[j].item.id;
    match FirstRepeat(cs, id, voter)
    case None =>
    case Some(k) =>
      assert false;
  }

  /**
   * With distinct ids, a second vote by the same voter on the same
   * candidate is refused and changes nothing.
   */
  lemma VoteRepeated(cs: seq<Candidate>, j: nat, voter: string, up: bool)
    requires DistinctIds(cs) && j < |cs| && voter in cs[j].votes
    ensures CastVote(cs, cs[j].item.id, voter, up) == Repeated(cs, cs[j].item.id)
  {
    var id := cs[j].item.id;
    var k := FirstRepeat(cs, id, voter).value;
    assert k == j;
    assert BumpAll(cs[..k], id, voter, up) == cs[..k];
    assert cs[..k] + cs[k..] == cs;
  }

  /** A vote for an id no candidate has changes nothing. */
  lemma VoteUnknown(cs: seq<Candidate>, id: string, voter: string, up: bool)
    requires !HasId(cs, id)
    ensures CastVote(cs, id, voter, up) == Counted(cs)
  {
    assert BumpAll(cs, id, voter, up) == cs;
  }

  /** One vote per voter per candidate: once counted, the same vote again is refused. */
  lemma {:induction false} VoteOnce(cs: seq<Candidate>, j: nat, voter: string, up: bool, again: bool)
    requires DistinctIds(cs) && j < |cs| && voter !in cs[j].votes
    ensures var after := CastVote(cs, cs[j].item.id, voter, up).candidates;
      CastVote(after, cs[j].item.id, voter, again) == Repeated(after, cs[j].item.id)
  {
    VoteCounted(cs, j, voter, up);
    var after := CastVote(cs, cs[j].item.id, voter, up).candidates;
    CastVoteKeepsItems(cs, cs[j].item.id, voter, up);
    assert DistinctIds(after);
    assert after[j].item.id == cs[j].item.id;
    VoteRepeated(after, j, voter, again);
  }

  // ---------------------------------------------------------------------------
  // Results

  predicate SortedByScore(rs: seq<ResultsEntry>) {
    forall i, j | 0 <= i < j < |rs| :: rs[i].score >= rs[j].score
  }

  function Entries(cs: seq<Candidate>): (rs: seq<ResultsEntry>)
    ensures |rs| == |cs|
    ensures forall j | 0 <= j < |cs| :: rs[j] == ResultsEntry(cs[j].item.title, cs[j].score)
  {
    if cs == [] then [] else [ResultsEntry(cs[0].item.title, cs[0].score)] + Entries(cs[1..])
  }

  /** Insert into a list ordered by non-increasing score, after the entries with a higher score. */
  function Insert(e: ResultsEntry, rs: seq<ResultsEntry>): (r: seq<ResultsEntry>)
    ensures multiset(r) == multiset(rs) + multiset{e}
  {
    if rs == [] then [e]
    else if e.score >= rs[0].score then [e] + rs
    else
      assert rs == [rs[0]] + rs[1..];
      [rs[0]] + Insert(e, rs[1..])
  }

  lemma {:induction false} InsertSorted(e: ResultsEntry, rs: seq<ResultsEntry>)
    requires SortedByScore(rs)
    ensures SortedByScore(Insert(e, rs))
  {
    if rs != [] && e.score < rs[0].score {
      var tail := Insert(e, rs[1..]);
      InsertSorted(e, rs[1..]);
      forall i | 0 <= i < |tail|
        ensures rs[0].score >= tail[i].score
      {
        assert tail[i] in multiset(rs[1..]) + multiset{e};
        if tail[i] != e {
          var k :| 0 <= k < |rs[1..]| && rs[1..][k] == tail[i];
          assert rs[k + 1] == tail[i];
        }
      }
      ConsSorted(rs[0], tail);
    } else if rs != [] {
      ConsSorted(e, rs);
    }
  }

  /** An entry scoring at least as much as every entry of a sorted list can go in front of it. */
  lemma ConsSorted(x: ResultsEntry, t: seq<ResultsEntry>)
    requires SortedByScore(t)
    requires forall i | 0 <= i < |t| :: x.score >= t[i].score
    ensures SortedByScore([x] + t)
  {
    var r := [x] + t;
    forall i, j | 0 <= i < j < |r|
      ensures r[i].score >= r[j].score
    {
      assert r[j] == t[j - 1];
      if i > 0 {
        assert r[i] == t[i - 1];
      }
    }
  }

  function SortByScore(rs: seq<ResultsEntry>): (r: seq<ResultsEntry>)
    ensures multiset(r) == multiset(rs)
    ensures SortedByScore(r)
  {
    if rs == [] then []
    else
      assert rs == [rs[0]] + rs[1..];
      var sorted := SortByScore(rs[1..]);
      InsertSorted(rs[0], sorted);
      Insert(rs[0], sorted)
  }

  /**
   * collectResults: one entry (title and score) per candidate, ordered by
   * non-increasing score.  The source's sort is not stable, so the order
   * among equal scores is one of several it may produce.
   */
  function CollectResults(cs: seq<Candidate>): (r: seq<ResultsEntry>)
    ensures multiset(r) == multiset(Entries(cs))
    ensures SortedByScore(r)
    ensures |r| == |cs|
  {
    var r := SortByScore(Entries(cs));
    assert |r| == |multiset(r)|;
    r
  }

  // ---------------------------------------------------------------------------
  // strconv.Itoa and durations

  function DigitChar(d: nat): char
    requires d < 10
  {
    "0123456789"[d]
  }

  function DigitValue(ch: char): nat {
    if '0' <= ch <= '9' then (ch - '0') as nat else 0
  }

  predicate IsDigit(ch: char) {
    '0' <= ch <= '9'
  }

  /** The decimal digits of `n`, most significant first, with no leading zero. */
  function Digits(n: nat): (s: seq<char>)
    ensures |s| >= 1 && forall j | 0 <= j < |s| :: IsDigit(s[j])
    ensures |s| > 1 ==> s[0] != '0'
  {
    if n < 10 then [DigitChar(n)] else Digits(n / 10) + [DigitChar(n % 10)]
  }

  function ParseDigits(s: seq<char>): nat {
    if s == [] then 0 else ParseDigits(s[..|s| - 1]) * 10 + DigitValue(s[|s| - 1])
  }

  /** strconv.Itoa: an optional minus sign and the decimal digits. */
  function Itoa(n: int): string {
    if n < 0 then "-" + Digits(-n) else Digits(n)
  }

  function Atoi(s: string): int {
    if |s| > 0 && s[0] == '-' then -(ParseDigits(s[1..]) as int) else ParseDigits(s)
  }

  lemma {:induction false} DigitsRoundTrip(n: nat)
    ensures ParseDigits(Digits(n)) == n
  {
    if n >= 10 {
      DigitsRoundTrip(n / 10);
      var s := Digits(n / 10) + [DigitChar(n % 10)];
      assert s[..|s| - 1] == Digits(n / 10);
    }
  }

  /** The text strconv.Itoa gives reads back as the same number, so distinct ids give distinct texts. */
  lemma ItoaRoundTrip(n: int)
    ensures Atoi(Itoa(n)) == n
  {
    if n < 0 {
      DigitsRoundTrip(-n);
      assert ("-" + Digits(-n))[1..] == Digits(-n);
    } else {
      DigitsRoundTrip(n);
      assert Digits(n)[0] != '-' by {
        assert IsDigit(Digits(n)[0]);
      }
    }
  }

  lemma ItoaInjective(a: int, b: int)
    ensures Itoa(a) == Itoa(b) <==> a == b
  {
    ItoaRoundTrip(a);
    ItoaRoundTrip(b);
  }

  const TwoTo63: int := 0x8000_0000_0000_0000
  type Int64 = x: int | -TwoTo63 <= x < TwoTo63

  /** Two's-complement wrap-around of a 64-bit signed product. */
  function Wrap64(x: int): (r: Int64)
    ensures -TwoTo63 <= x < TwoTo63 ==> r == x
    ensures (r - x) % (2 * TwoTo63) == 0
  {
    (x + TwoTo63) % (2 * TwoTo63) - TwoTo63
  }

  /** time.Duration(seconds) * time.Second, in 64-bit arithmetic. */
  function TimerDuration(seconds: Int64): (d: Int64)
    ensures -TwoTo63 <= seconds * Second < TwoTo63 ==> d == seconds * Second
  {
    Wrap64(seconds * Second)
  }

  /** Beyond about 292 years the requested countdown wraps around to a negative duration. */
  lemma TimerWrapsAround()
    ensures TimerDuration(9_223_372_037) < 0
  {
  }
}
