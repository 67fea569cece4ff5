# Kurento Go client: dispatch engine and request helpers

This project models the core of a Go client for the Kurento media server. The
client speaks JSON-RPC 2.0 over one WebSocket. Many callers send requests over
that socket, and each must get its own reply. The server also pushes `onEvent`
notifications, which must reach whoever subscribed to that (event type, source
object) pair.

The model treats the connection as a sequential state machine. Its state is:

- the request counter `clientId`;
- the session token `SessionId`;
- the pending-reply table, keyed by request id;
- the subscription table, keyed by (event type, source id).

`Request`, `Subscribe`, `Unsubscribe`, `Close` and one iteration of the reader
loop (`Step`) are pure functions on that state. A `Trace` module runs them over
any sequence of events. In that sequential model, where each hand-off to a
waiting caller or subscriber happens in the same step as the routing, it
proves:

- ids are 1, 2, 3, ...;
- every reply goes to a request that was sent;
- no request gets two replies;
- a subscription receives its notifications in the order they were routed.

The last two hold only for the sequential model. The source hands every
delivery to a goroutine of its own, so the real client can break them (see
"## Left out").

Two smaller groups of helpers are modelled too. From `base.go`: the envelope
builders, `mergeOptions`, `setIfNotEmpty` and `getMediaElementType`. From
`core.go`: `trimQuotes` and the way the media-object operations turn a reply
into a result.

Modules: `Rpc` (wire types, `Option`/`Result`), `Websocket`, `Trace`, `Base`,
`Core`.

Three behaviours of the code a caller may not expect, which the model keeps:

- Unsubscribing an absent key does not do nothing. It closes a nil channel, which
  panics. `Websocket.Unsubscribe` returns `Failure(CloseOfNilChannel)`.
- A request whose write fails keeps its pending entry. The code never removes it.
- `Close` itself neither closes nor removes pending entries; it leaves both
  tables alone. A caller still waiting for a reply is released only if it
  also waits on `closeSig`, as the generated wrappers do. A delivery goroutine
  already running at shutdown closes and deletes its own entry; that goroutine
  is outside the model.

## Model

| member | source | states |
|---|---|---|
| Websocket.NewConnection | websocket.go:85-96 | A new connection has counter 0, no pending entries, no subscriptions, no session token and no close request, and satisfies the id invariant |
| Websocket.Request | websocket.go:248-256 | The id is the old counter plus one, so the first is 1. It is above every pending id and was not pending before. The envelope carries it as a float. `sessionId` is stamped with the current token exactly when the token is non-empty. The caller's other entries are unchanged. Exactly one pending entry is added and nothing else changes |
| Websocket.Subscribe | websocket.go:227-238 | Creates or replaces (with an empty channel) the entry for exactly (eventType, elementId). Every other key keeps its presence and its delivered notifications |
| Websocket.Unsubscribe | websocket.go:241-246 | Succeeds if and only if the key is subscribed, and then removes exactly that key. Otherwise it panics (close of a nil channel) |
| Websocket.Close | websocket.go:114-134 | The first close message wins. A later Close changes nothing. Neither table is touched |
| Websocket.Step | websocket.go:141-224 | Once closing, the loop has stopped. A read error asks for shutdown with the reason. The session token changes exactly when the frame carries a non-empty one. A frame whose id is pending goes to that entry, even if it is an `onEvent`, and the entry is removed. Otherwise an `onEvent` whose (type, source) is subscribed is appended to that channel and the subscription stays. Otherwise the frame is dropped and both tables are unchanged |
| Websocket.NotificationNeverReachesClient | websocket.go:201-212 | A frame with id 0 (a notification) is never delivered to a pending entry |
| Websocket.DeliveryRemovesEntry | websocket.go:187-199 | After a reply is delivered, a second frame with the same id is not delivered to a pending entry |
| Websocket.SessionTokenReachesNextRequest | websocket.go:178-183 | After a frame with a non-empty token, the next request carries that token |
| Websocket.SubscribeThenUnsubscribe | websocket.go:227-246 | Unsubscribing right after subscribing succeeds and leaves every other key as it was |
| Websocket.CloseIdempotent | websocket.go:127-134 | Closing twice equals closing once |
| Trace.Apply | websocket.go:141-263 | An event adds a pending entry only for the id it issues. A delivery consumes a pending entry. The id invariant is preserved |
| Trace.RunClientIdGrows | websocket.go:249 | The request counter never decreases over a run |
| Trace.RunIssuesConsecutiveIds | websocket.go:249-250 | In any run, the n-th issued id is the starting counter plus n |
| Trace.RunIssuesIncreasingIds | websocket.go:249-250 | Issued ids lie above the starting counter and strictly increase |
| Trace.RunDeliversOnlyToRequests | websocket.go:187-199 | Every delivered reply answers an id that was pending at the start or was issued earlier in the run |
| Trace.RunDeliversPendingOrFresh | websocket.go:187-199 | Every delivered reply answers an id that was pending at the start or lies above the starting counter |
| Trace.RunDeliversAtMostOnce | websocket.go:187-199 | No two replies in a run are delivered to the same id |
| Trace.FreshConnectionPairsRepliesWithRequests | websocket.go:187-199 | From a new connection, ids are 1, 2, 3, ... Every delivery answers a request issued earlier in the run, and none is answered twice |
| Trace.SubscriptionReceivesInOrder | websocket.go:201-212 | A subscription that is not re-subscribed or removed stays in place. Its channel receives exactly the notifications routed to it, in order |
| Base.CreateRequest | base.go:89-96 | The create envelope has exactly `jsonrpc = "2.0"`, `method = "create"` and empty `params` |
| Base.InvokeRequest | base.go:99-104 | The invoke envelope equals the create envelope except that `method` is `"invoke"` |
| Base.MergeOptions | base.go:118-122 | The keys are those of `a` and `b`. Every key of `b` has `b`'s value. Keys only in `a` keep their values |
| Base.MergeOptionsIsUnion | base.go:118-122 | Those three facts determine the result as the right-biased union. Merging the same options again changes nothing |
| Base.SetIfNotEmpty | base.go:124-146 | No other key changes. A string is stored only if non-empty, an int only if non-zero, a bool only if true. A Stringer is stored as its text only if that text is non-empty. A float is always stored. Nil, maps and other types leave the map unchanged |
| Base.SetIfNotEmptyStoresFloatZero | base.go:131-134 | A float64 zero is stored, although it is the zero value |
| Base.SetIfNotEmptyIntended | base.go:124-146 | With zero floats skipped, the filter never stores a zero value. It stores every non-zero basic value and every Stringer with text, and leaves other keys alone |
| Base.SetIfNotEmptyAgreesExceptFloat | base.go:124-146 | The code and the corrected filter agree on every non-float value |
| Base.SetIfNotEmptyIdempotent | base.go:124-146 | Filtering the same value twice equals filtering it once |
| Base.FirstIndex | base.go:112-116 | Returns the position of the first separator, with none before it |
| Base.Split | base.go:112-116 | strings.Split gives at least one piece, and no piece contains the separator |
| Base.SplitLast | base.go:112-116 | The last piece is the suffix after the last separator |
| Base.JoinSplit | base.go:112-116 | Joining the pieces of a split gives back the string |
| Base.SplitJoin | base.go:112-116 | Splitting a join of separator-free pieces gives back the pieces |
| Base.MediaElementType | base.go:112-116 | The result has no '.'. It is a suffix of the type name, preceded by '.' unless it is the whole name. A name without '.' is returned whole |
| Core.TrimLeft | core.go:765-767 | Removes exactly the leading run of the cut character |
| Core.TrimRight | core.go:765-767 | Removes exactly the trailing run of the cut character |
| Core.TrimQuotes | core.go:765-767 | The result neither starts nor ends with '"'. It is a contiguous middle of the input with only quotes on either side, so interior quotes are kept in order |
| Core.TrimQuotesOfQuoted | core.go:765-767 | Any number of quotes around an unquoted middle are removed, giving back exactly the middle |
| Core.TrimQuotesIdentity | core.go:765-767 | A string that neither starts nor ends with '"' is unchanged |
| Core.TrimQuotesIdempotent | core.go:765-767 | Trimming twice equals trimming once |
| Core.InvokeEnvelope | core.go:372-405 | An operation request is an invoke envelope whose params hold exactly the operation and the object id, plus `operationParams` only for an operation that has parameters (GenerateOffer sends two keys, ProcessOffer three) |
| Core.InvokeEnvelopeRoundTrip | core.go:372-405 | Reading the operation, object and parameters back from the request gives exactly what was put in, also after `Request` stamps its id and token |
| Core.ProcessOfferRequest | core.go:395-405 | An invoke of `processOffer` on the object. Its params are exactly operation, object and operationParams. The offer is in the operation parameters if and only if it is non-empty, and the parameters are empty otherwise |
| Core.ProcessOfferSent | core.go:395-408 | The request written for ProcessOffer reads back as processOffer on the object, with the offer present exactly when it is non-empty |
| Core.SdpReply | core.go:383-386 | An error reply gives the server's error. Otherwise the result is the raw value with its surrounding quotes removed, and it is unquoted |
| Core.SdpReplyOfStringLiteral | core.go:411-414 | A value that is a quoted text without edge quotes gives exactly that text |
| Core.ConnectionsReply | core.go:576-580 | An error reply gives the server's error. Otherwise the result is always the empty list |
| Core.ConnectionsReplyIgnoresPayload | core.go:609-613 | The reply's payload does not affect the result |
| Core.StatsReply | core.go:745-762 | An error reply gives the server's error. An empty value gives "getStats Response Value was nil". Otherwise the decoder's success or failure is passed through |
| Core.StatsReplyNeedsValue | core.go:750-760 | An empty value is always an error |
| Core.ErrorOnlyReply | core.go:274-277 | An operation that returns only an error returns one exactly when the reply carries one |
| Core.ServerErrorTakesPrecedence | core.go:383-386 | When the reply carries an error, the SDP, connections and stats mappings all return exactly the error the error-only operations return. Without one, none of them returns a server error |
| Core.SubscribeObject | core.go:55-61 | An error reply returns the error and leaves the connection unchanged. Otherwise it registers an empty subscription for (eventType, object id). Other keys keep their presence and their delivered notifications. The counter, pending table, session token and close request are unchanged |
| Core.FailedSubscribeRegistersNothing | core.go:55-61 | After a failed subscribe, a notification for that key is dropped |

## Left out

- Dialling, `websocket.JSON.Send/Receive`, the 5-second dial timeout and the `/kurento` URL: I/O through a library. The written envelope is returned to the caller, and a decoded frame or read error is an input to `Step`.
- Websocket.Request: the error returned by the socket write is not modelled. It is handed back to the caller unchanged and does not affect the state.
- Goroutines, channel hand-off, `closeSig`, `toCloseCh`, `awaitClose` and the `WaitGroup`. Each delivery and removal is one atomic step. The unlocked `clientId++` race is out of scope.
- Trace.RunDeliversAtMostOnce: holds only when delivery and removal are one step. In the source a delivery runs in its own goroutine (websocket.go:189-200) and removes the entry only after the caller has read. A duplicate id that arrives before then starts a second sender, which may deliver the second reply instead of the first. A sender still blocked when the first one closes the channel panics.
- Trace.SubscriptionReceivesInOrder: holds only when each notification is appended in the step that routes it. In the source every notification is sent by a goroutine of its own (websocket.go:204-212), so two notifications for one key can reach the channel in either order.
- Websocket.Request: the source writes `id` and `sessionId` into the caller's map in place (websocket.go:250-253). The model returns a new envelope and leaves the caller's map alone. `mergeOptions` likewise updates `a` in place (base.go:119-121), while `Base.MergeOptions` returns the merged map.
- Request ids are `nat`. The source's `float64` ids and non-integral or negative ids from the server are not modelled. Such an id matches no pending entry.
- Base.SetIfNotEmpty: a typed nil pointer behind `IMediaObject` is not distinguished. It would be stored as the text `fmt` prints for it. The nil interface matches no case.
- `getMediaElementType` takes the type name as a string. The reflection that produces it is not modelled.
- JSON (un)marshalling: `GetStats` receives the decoder's outcome as a parameter. The `[code] message data` formatting of server errors is kept as the `RpcError` value itself.
- Core.SdpReply: the raw value is not JSON-decoded, as in the source, so escapes such as `\r\n` stay as written.
- Debug logging, `spew.Dump` and the `debug` flag.
- `getSubscribeRequest` and `getReleaseRequest` are not part of this model, because their definitions are not among the repository files. The call sites that receive from the two-value `Request` in one expression are modelled only through their reply-to-result logic.
- `MediaObject.Create`, the parent/child object graph, the generated wrapper types and `complexTypes.go`: remote-call plumbing and type declarations.

## Findings

| source | as written | input that shows it | evidently intended | confidence | as-written member | corrected member |
|---|---|---|---|---|---|---|
| base.go:131-134 | `case int, float64: if v != 0` compares an `interface{}` holding a float64 with the int constant 0, which never matches a float | `setIfNotEmpty(p, "relativeX", 0.0)` stores `relativeX = 0` | zero floats are skipped like zero ints | high; not executed | Base.SetIfNotEmptyStoresFloatZero | Base.SetIfNotEmptyIntended |

`Core.ProcessOfferRequest` passes a string, on which the code and the corrected
filter agree (`Base.SetIfNotEmptyAgreesExceptFloat`), so it uses
`Base.SetIfNotEmpty` as written.
