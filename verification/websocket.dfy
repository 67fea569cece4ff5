/**
 The request/notification dispatch engine of the client connection, seen as a
 sequential state machine. The state is the request counter, the session
 token, the pending-reply table (ids of requests still waiting for their
 reply), the subscription table keyed by (event type, source id), and the
 message that asked the connection to close, once there is one.

 Every goroutine hand-off of the original is one atomic step here: a reply
 routed to a pending entry is delivered and the entry removed in the same step.
 */
module Websocket {
  import opened Rpc

  /** The notifications delivered on one subscriber channel so far, oldest first. */
  type Inbox = seq<Response>

  datatype Connection = Connection(
    clientId: nat,                                // the last request id handed out
    sessionId: string,                            // "" until the server hands one back
    clients: set<nat>,                            // ids with a pending reply channel
    subscribers: map<string, map<string, Inbox>>, // event type -> source id -> channel
    closeRequest: Option<string>)                 // the message that started the shutdown

  /** The message a caller's Close puts on the shutdown channel. */
  const CloseCalled: string := "Close called"

  /** The prefix of the shutdown message after a failed read. */
  const ReadErrorPrefix: string := "Error reading from websocket: "

  /** Every pending id was handed out by an earlier Request: ids start at 1,
      so no pending id is 0, and none is above the counter. */
  predicate Valid(c: Connection) {
    forall id :: id in c.clients ==> 0 < id <= c.clientId
  }

  predicate Subscribed(c: Connection, eventType: string, source: string) {
    eventType in c.subscribers && source in c.subscribers[eventType]
  }

  function InboxOf(c: Connection, eventType: string, source: string): Inbox
    requires Subscribed(c, eventType, source)
  {
    c.subscribers[eventType][source]
  }

  /** The state of a freshly dialled connection. */
  function NewConnection(): (c: Connection)
    ensures Valid(c) && c.clients == {} && c.sessionId == ""
    ensures forall t, s :: !Subscribed(c, t, s)
    // the counter starts at zero, so the first id is 1, and nothing asked to close
    ensures c.clientId == 0 && c.closeRequest.None?
  {
    Connection(0, "", {}, map[], None)
  }

  datatype Requested = Requested(conn: Connection, sent: Envelope, id: nat)

  /** Request: take the next id, stamp it and the current session token on the
      envelope, and register a pending entry for it. The returned envelope is
      what gets written to the socket; the write itself is not modelled. */
  function Request(c: Connection, req: Envelope): (r: Requested)
    // the counter is bumped before use, so ids are 1, 2, 3, ...
    ensures r.id == c.clientId + 1 && r.conn.clientId == r.id
    ensures Valid(c) ==> forall id :: id in c.clients ==> id < r.id
    ensures Valid(c) ==> r.id !in c.clients
    ensures "id" in r.sent && r.sent["id"] == Float(r.id as real)
    // the session token goes out only when one is known, and then the current one
    ensures c.sessionId != "" ==> "sessionId" in r.sent && r.sent["sessionId"] == Str(c.sessionId)
    ensures c.sessionId == "" ==>
              ("sessionId" in r.sent <==> "sessionId" in req) &&
              ("sessionId" in req ==> r.sent["sessionId"] == req["sessionId"])
    // the caller's own entries travel unchanged
    ensures forall k :: k != "id" && k != "sessionId" ==>
              (k in r.sent <==> k in req) && (k in req ==> r.sent[k] == req[k])
    // one new pending entry, nothing else changes
    ensures r.conn.clients == c.clients + {r.id}
    ensures r.conn.sessionId == c.sessionId && r.conn.subscribers == c.subscribers
    ensures r.conn.closeRequest == c.closeRequest
    ensures Valid(c) ==> Valid(r.conn)
  {
    var id := c.clientId + 1;
    var stamped := req["id" := Float(id as real)];
    var sent := if c.sessionId != "" then stamped["sessionId" := Str(c.sessionId)] else stamped;
    Requested(c.(clientId := id, clients := c.clients + {id}), sent, id)
  }

  /** Subscribe: create, or replace with a fresh channel, the subscription for
      exactly (eventType, elementId). */
  function Subscribe(c: Connection, eventType: string, elementId: string): (r: Connection)
    ensures Subscribed(r, eventType, elementId) && InboxOf(r, eventType, elementId) == []
    ensures forall t, s :: (t != eventType || s != elementId) ==>
              (Subscribed(r, t, s) <==> Subscribed(c, t, s))
    ensures forall t, s :: (t != eventType || s != elementId) && Subscribed(c, t, s) ==>
              InboxOf(r, t, s) == InboxOf(c, t, s)
    ensures r.clientId == c.clientId && r.sessionId == c.sessionId
    ensures r.clients == c.clients && r.closeRequest == c.closeRequest
  {
    var inner := if eventType in c.subscribers then c.subscribers[eventType] else map[];
    c.(subscribers := c.subscribers[eventType := inner[elementId := []]])
  }

  /** Why an operation aborts the program. */
  datatype Panic = CloseOfNilChannel

  /** Unsubscribe: close and remove the channel of exactly (eventType,
      elementId). Closing the nil channel found under an absent key panics. */
  function Unsubscribe(c: Connection, eventType: string, elementId: string): (r: Result<Connection, Panic>)
    ensures r.Success? <==> Subscribed(c, eventType, elementId)
    ensures r.Failure? ==> r.error == CloseOfNilChannel
    ensures r.Success? ==> !Subscribed(r.value, eventType, elementId)
    ensures r.Success? ==> forall t, s :: (t != eventType || s != elementId) ==>
              (Subscribed(r.value, t, s) <==> Subscribed(c, t, s))
    ensures r.Success? ==> forall t, s :: (t != eventType || s != elementId) && Subscribed(c, t, s) ==>
              InboxOf(r.value, t, s) == InboxOf(c, t, s)
    ensures r.Success? ==> r.value.clientId == c.clientId && r.value.sessionId == c.sessionId &&
                           r.value.clients == c.clients && r.value.closeRequest == c.closeRequest
  {
    if !Subscribed(c, eventType, elementId) then Failure(CloseOfNilChannel)
    else Success(c.(subscribers := c.subscribers[eventType := c.subscribers[eventType] - {elementId}]))
  }

  /** Close: the first shutdown message wins; later calls find the
      connection already closing and change nothing. */
  function Close(c: Connection): (r: Connection)
    ensures r.closeRequest.Some?
    ensures c.closeRequest.Some? ==> r == c
    ensures c.closeRequest.None? ==> r.closeRequest == Some(CloseCalled)
    ensures r.clientId == c.clientId && r.sessionId == c.sessionId
    ensures r.clients == c.clients && r.subscribers == c.subscribers
  {
    if c.closeRequest.Some? then c else c.(closeRequest := Some(CloseCalled))
  }

  /** What the reader loop gets from one read: a decoded frame or a read error. */
  datatype Incoming = Frame(response: Response) | ReadError(message: string)

  /** Where one iteration of the reader loop sends its frame. */
  datatype Dispatch =
    | ToClient(id: nat, response: Response)
    | ToSubscriber(eventType: string, source: string, response: Response)
    | Dropped(response: Response)
    | Closing(reason: string)   // the read failed; the loop asks for shutdown and ends
    | Stopped                   // the loop has already ended

  datatype Stepped = Stepped(conn: Connection, dispatch: Dispatch)

  /** One iteration of the reader loop: adopt a new session token, then route
      the frame to its pending entry (removing it), else to its subscription
      (keeping it), else drop it. */
  function Step(c: Connection, input: Incoming): (r: Stepped)
    ensures c.closeRequest.Some? ==> r == Stepped(c, Stopped)
    ensures c.closeRequest.None? && input.ReadError? ==>
              r.dispatch == Closing(ReadErrorPrefix + input.message) &&
              r.conn == c.(closeRequest := Some(ReadErrorPrefix + input.message))
    // the session token changes exactly when the frame carries a non-empty one
    ensures c.closeRequest.None? && input.Frame? && input.response.result.sessionId != "" ==>
              r.conn.sessionId == input.response.result.sessionId
    ensures c.closeRequest.None? && input.Frame? && input.response.result.sessionId == "" ==>
              r.conn.sessionId == c.sessionId
    // a pending entry takes precedence, even over an onEvent notification
    ensures c.closeRequest.None? && input.Frame? && input.response.id in c.clients ==>
              r.dispatch == ToClient(input.response.id, input.response) &&
              r.conn.clients == c.clients - {input.response.id} &&
              r.conn.subscribers == c.subscribers
    ensures c.closeRequest.None? && input.Frame? && input.response.id !in c.clients &&
            input.response.methodName == OnEvent &&
            Subscribed(c, input.response.data.eventType, input.response.data.source) ==>
              var t, s := input.response.data.eventType, input.response.data.source;
              r.dispatch == ToSubscriber(t, s, input.response) &&
              r.conn.clients == c.clients &&
              Subscribed(r.conn, t, s) && InboxOf(r.conn, t, s) == InboxOf(c, t, s) + [input.response] &&
              (forall t', s' :: Subscribed(r.conn, t', s') <==> Subscribed(c, t', s')) &&
              (forall t', s' :: (t' != t || s' != s) && Subscribed(c, t', s') ==>
                 InboxOf(r.conn, t', s') == InboxOf(c, t', s'))
    ensures c.closeRequest.None? && input.Frame? && input.response.id !in c.clients &&
            (input.response.methodName != OnEvent ||
             !Subscribed(c, input.response.data.eventType, input.response.data.source)) ==>
              r.dispatch == Dropped(input.response) &&
              r.conn.clients == c.clients && r.conn.subscribers == c.subscribers
    ensures c.closeRequest.None? && input.Frame? ==> r.conn.closeRequest == None
    ensures r.conn.clientId == c.clientId && r.conn.clients <= c.clients
    ensures Valid(c) ==> Valid(r.conn)
  {
    if c.closeRequest.Some? then Stepped(c, Stopped)
    else match input
      case ReadError(msg) =>
        var reason := ReadErrorPrefix + msg;
        Stepped(c.(closeRequest := Some(reason)), Closing(reason))
      case Frame(resp) =>
        var session :=
          if resp.result.sessionId != "" && c.sessionId != resp.result.sessionId
          then resp.result.sessionId else c.sessionId;
        var c1 := c.(sessionId := session);
        var t, s := resp.data.eventType, resp.data.source;
        if resp.id in c.clients then
          Stepped(c1.(clients := c.clients - {resp.id}), ToClient(resp.id, resp))
        else if resp.methodName == OnEvent && Subscribed(c, t, s) then
          var inner := c.subscribers[t];
          Stepped(c1.(subscribers := c.subscribers[t := inner[s := inner[s] + [resp]]]),
                  ToSubscriber(t, s, resp))
        else
          Stepped(c1, Dropped(resp))
  }

  /** A notification carries no id, so it decodes with id 0, which no pending
      entry ever has: it can only reach a subscription or be dropped. */
  lemma NotificationNeverReachesClient(c: Connection, resp: Response)
    requires Valid(c) && resp.id == 0
    ensures !Step(c, Frame(resp)).dispatch.ToClient?
  {
  }

  /** A reply is delivered at most once: a second frame with the same id after
      the delivery finds no pending entry. */
  lemma DeliveryRemovesEntry(c: Connection, first: Response, second: Response)
    requires c.closeRequest.None? && first.id in c.clients && second.id == first.id
    ensures Step(c, Frame(first)).dispatch == ToClient(first.id, first)
    ensures !Step(Step(c, Frame(first)).conn, Frame(second)).dispatch.ToClient?
  {
  }

  /** Once a reply has carried a session token, the next request carries it. */
  lemma SessionTokenReachesNextRequest(c: Connection, resp: Response, req: Envelope)
    requires c.closeRequest.None? && resp.result.sessionId != ""
    ensures var next := Request(Step(c, Frame(resp)).conn, req);
            "sessionId" in next.sent && next.sent["sessionId"] == Str(resp.result.sessionId)
  {
  }

  /** Unsubscribing right after subscribing succeeds and leaves the table as
      it was for every other key. */
  lemma SubscribeThenUnsubscribe(c: Connection, eventType: string, elementId: string)
    ensures var r := Unsubscribe(Subscribe(c, eventType, elementId), eventType, elementId);
            r.Success? && !Subscribed(r.value, eventType, elementId) &&
            forall t, s :: (t != eventType || s != elementId) ==>
              (Subscribed(r.value, t, s) <==> Subscribed(c, t, s))
  {
  }

  /** Close is idempotent. */
  lemma CloseIdempotent(c: Connection)
    ensures Close(Close(c)) == Close(c)
  {
  }
}
