/**
 * The wiring in main.go: the handler table registered on the connection
 * registry of pkg/client/client.go, the EnsureRoom guard around every
 * handler but join's, the IgnorePaths prefix check of the request logger,
 * and the connection step that lets a `clientID` query parameter replace the
 * generated client id.  A handler is named by the message kind it handles;
 * running it is the business of the Handlers module.
 */
module Server {
  import opened Base
  import opened Views
  import Registry
  import RootClient

  const JoinFirst := "Join room first"

  /** A registered handler: a message handler as is, or wrapped in EnsureRoom. */
  datatype EventHandler = Plain(op: Op) | Guarded(op: Op)

  /** What calling a registered handler for a client comes to. */
  datatype Call =
    | Ran(op: Op)              // the message handler runs
    | Refused(reason: string)  // EnsureRoom reported an error to the client instead
    | Unhandled                // nothing is registered for the message type

  /** Calling `h` for a client whose room is `roomId` ("" before it joins one). */
  function Invoke(h: EventHandler, roomId: string): (r: Call)
    ensures !r.Unhandled? && (r.Ran? ==> r.op == h.op)
    ensures r.Refused? <==> h.Guarded? && roomId == ""
    ensures r.Refused? ==> r.reason == JoinFirst
  {
    match h
    case Plain(op) => Ran(op)
    case Guarded(op) => if roomId == "" then Refused(JoinFirst) else Ran(op)
  }

  /** The seven registrations: join unguarded, every other message kind behind EnsureRoom. */
  function HandlerTable(): map<string, EventHandler> {
    map[Tag(Join) := Plain(Join),
        Tag(ToggleReady) := Guarded(ToggleReady),
        Tag(NextStage) := Guarded(NextStage),
        Tag(SetTimer) := Guarded(SetTimer),
        Tag(ListAdd) := Guarded(ListAdd),
        Tag(ListRemove) := Guarded(ListRemove),
        Tag(Vote) := Guarded(Vote)]
  }

  /** The table has an entry for exactly the seven message kinds, and only join's is unguarded. */
  lemma HandlerTableShape()
    ensures HandlerTable().Keys == set op: Op :: Tag(op)
    ensures forall op: Op :: HandlerTable()[Tag(op)] == if op == Join then Plain(op) else Guarded(op)
  {
  }

  /** handleMessage followed by the handler it selects. */
  function Dispatch(handlers: map<string, EventHandler>, roomId: string, kind: string): Call {
    match Lookup(handlers, kind)
    case None => Unhandled
    case Some(h) => Invoke(h, roomId)
  }

  /**
   * With the table registered: an unknown kind reaches no handler; join
   * always runs; any other known kind is refused before the client has a
   * room and runs its own handler once it has one.
   */
  lemma TableDispatch(roomId: string, kind: string)
    ensures var r := Dispatch(HandlerTable(), roomId, kind);
      && (r.Unhandled? <==> ParseTag(kind).None?)
      && (r.Ran? ==> Tag(r.op) == kind)
      && (kind == Tag(Join) ==> r == Ran(Join))
      && (kind != Tag(Join) && ParseTag(kind).Some? ==>
            r == if roomId == "" then Refused(JoinFirst) else Ran(ParseTag(kind).value))
  {
    var t := HandlerTable();
    HandlerTableShape();
    match ParseTag(kind)
    case None =>
      if kind in t {
        var op :| Tag(op) == kind;
        ParseTagRoundTrip(op);
      }
    case Some(op) =>
      assert kind == Tag(op);
  }

  /**
   * The table agrees with the hard-coded switch of the root client.go on
   * every message but join: a message runs a handler under one exactly when
   * it does under the other, and the same one.  (Join differs: the table runs
   * it in a room too, the switch only outside one.)
   */
  lemma TableAgreesWithSwitch(roomId: string, kind: string)
    requires kind != Tag(Join)
    ensures Dispatch(HandlerTable(), roomId, kind).Ran? <==> RootClient.RouteMessage(roomId, kind).Routed?
    ensures Dispatch(HandlerTable(), roomId, kind).Ran? ==>
      Dispatch(HandlerTable(), roomId, kind).op == RootClient.RouteMessage(roomId, kind).op
  {
    TableDispatch(roomId, kind);
  }

  /** Registering the table's entries one by one over `handlers` adds the table to it. */
  lemma RegisteredTable(handlers: map<string, EventHandler>)
    ensures handlers + HandlerTable() ==
      handlers
        [Tag(Join) := Plain(Join)]
        [Tag(ToggleReady) := Guarded(ToggleReady)]
        [Tag(NextStage) := Guarded(NextStage)]
        [Tag(SetTimer) := Guarded(SetTimer)]
        [Tag(ListAdd) := Guarded(ListAdd)]
        [Tag(ListRemove) := Guarded(ListRemove)]
        [Tag(Vote) := Guarded(Vote)]
  {
  }

  /** The handler registration calls of main.go. */
  method RegisterHandlers<E>(m: Registry.ConnectionManager<E, EventHandler>)
    modifies m`handlers
    ensures m.handlers == old(m.handlers) + HandlerTable()
  {
    RegisteredTable(m.handlers);
    m.RegisterEventHandler(Tag(Join), Plain(Join));
    m.RegisterEventHandler(Tag(ToggleReady), Guarded(ToggleReady));
    m.RegisterEventHandler(Tag(NextStage), Guarded(NextStage));
    m.RegisterEventHandler(Tag(SetTimer), Guarded(SetTimer));
    m.RegisterEventHandler(Tag(ListAdd), Guarded(ListAdd));
    m.RegisterEventHandler(Tag(ListRemove), Guarded(ListRemove));
    m.RegisterEventHandler(Tag(Vote), Guarded(Vote));
  }

  /**
   * Running a registered handler for `c`: EnsureRoom reports "Join room
   * first" to a client without a room and skips the handler; otherwise the
   * handler runs (its kind is returned) and nothing is enqueued here.
   */
  method Run<E>(c: Registry.Client<E, EventHandler>, h: EventHandler) returns (ran: Option<Op>)
    requires h.Guarded? && c.roomId == "" ==> !c.closed
    modifies c`egress
    ensures var call := Invoke(h, c.roomId);
      && (call.Refused? ==> ran == None && c.egress == old(c.egress) + [Failure(call.reason)])
      && (call.Ran? ==> ran == Some(call.op) && c.egress == old(c.egress))
  {
    if h.Guarded? && c.roomId == "" {
      c.ReportError(JoinFirst);
      return None;
    }
    ran := Some(h.op);
  }

  /**
   * The IgnorePaths check: a path that starts with any of the skip prefixes
   * goes straight to the next handler (true); any other goes through the
   * wrapped middleware (false).
   */
  method Bypasses(path: string, skipPrefixes: seq<string>) returns (bypass: bool)
    ensures bypass <==> exists i | 0 <= i < |skipPrefixes| :: skipPrefixes[i] <= path
  {
    for i := 0 to |skipPrefixes|
      invariant forall j | 0 <= j < i :: !(skipPrefixes[j] <= path)
    {
      if skipPrefixes[i] <= path {
        return true;
      }
    }
    bypass := false;
  }

  /**
   * The websocket endpoint's connection step: a new client under the
   * generated id, which a non-empty `clientID` query parameter replaces,
   * added to the registry under the id it ends up with.
   */
  method Connect<E>(m: Registry.ConnectionManager<E, EventHandler>, generatedId: string, queryId: string)
    returns (c: Registry.Client<E, EventHandler>)
    modifies m`clients
    ensures fresh(c) && c.manager == m
    ensures c.id == if queryId != "" then queryId else generatedId
    ensures c.roomId == "" && c.egress == [] && !c.closed
    ensures m.clients == old(m.clients)[c.id := c]
  {
    c := new Registry.Client(generatedId, m);
    if queryId != "" {
      c.id := queryId;
    }
    m.AddClient(c);
  }
}
