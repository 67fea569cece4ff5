/**
 The media-object operations, reduced to what they do with the connection
 and the server's reply: each builds an `invoke` envelope, and turns the
 reply into the operation's result, the server's error taking precedence.
 */
module Core {
  import opened Rpc
  import opened Websocket
  import opened Base

  const Quote: char := '"'

  /** A string made of `n` quote characters. */
  function Quotes(n: nat): (q: string)
    ensures |q| == n && forall i :: 0 <= i < n ==> q[i] == Quote
  {
    seq(n, _ => Quote)
  }

  /** Neither the first nor the last character is a quote. */
  predicate Unquoted(s: string) {
    s == [] || (s[0] != Quote && s[|s| - 1] != Quote)
  }

  /** strings.TrimLeft with a one-character cutset. */
  function TrimLeft(s: string, c: char): (r: string)
    ensures |r| <= |s| && r == s[|s| - |r|..]
    ensures r == [] || r[0] != c
    ensures forall i :: 0 <= i < |s| - |r| ==> s[i] == c
    decreases |s|
  {
    if |s| > 0 && s[0] == c then TrimLeft(s[1..], c) else s
  }

  /** strings.TrimRight with a one-character cutset. */
  function TrimRight(s: string, c: char): (r: string)
    ensures |r| <= |s| && r == s[..|r|]
    ensures r == [] || r[|r| - 1] != c
    ensures forall i :: |r| <= i < |s| ==> s[i] == c
    decreases |s|
  {
    if |s| > 0 && s[|s| - 1] == c then TrimRight(s[..|s| - 1], c) else s
  }

  /** trimQuotes: strings.Trim(v, "\""), every leading and every trailing
      quote removed. */
  function TrimQuotes(v: string): (r: string)
    ensures Unquoted(r)
    // what is left is a contiguous middle part of `v`, bounded by quotes only
    ensures exists i, j :: 0 <= i <= j <= |v| && r == v[i..j] &&
              v[..i] == Quotes(i) && v[j..] == Quotes(|v| - j)
  {
    var left := TrimLeft(v, Quote);
    var r := TrimRight(left, Quote);
    var i := |v| - |left|;
    var j := i + |r|;
    assert r == v[i..j];
    assert v[..i] == Quotes(i);
    assert v[j..] == Quotes(|v| - j) by {
      forall k | j <= k < |v|
        ensures v[k] == Quote
      {
        assert v[k] == left[k - i];
      }
    }
    r
  }

  /** Stripping the quotes around an unquoted middle gives back that middle,
      whatever the numbers of quotes on each side. */
  lemma {:induction false} TrimQuotesOfQuoted(a: nat, m: string, b: nat)
    requires Unquoted(m)
    ensures TrimQuotes(Quotes(a) + m + Quotes(b)) == m
  {
    var v := Quotes(a) + m + Quotes(b);
    if m == [] {
      assert v == Quotes(a + b) + [];
      TrimLeftQuotes(a + b, []);
    } else {
      TrimLeftQuotes(a, m + Quotes(b));
      assert v == Quotes(a) + (m + Quotes(b));
      TrimRightQuotes(m, b);
    }
  }

  lemma {:induction false} TrimLeftQuotes(a: nat, s: string)
    requires s == [] || s[0] != Quote
    ensures TrimLeft(Quotes(a) + s, Quote) == s
    decreases a
  {
    if a > 0 {
      assert (Quotes(a) + s)[1..] == Quotes(a - 1) + s;
      TrimLeftQuotes(a - 1, s);
    } else {
      assert Quotes(a) + s == s;
    }
  }

  lemma {:induction false} TrimRightQuotes(s: string, b: nat)
    requires s == [] || s[|s| - 1] != Quote
    ensures TrimRight(s + Quotes(b), Quote) == s
    decreases b
  {
    if b > 0 {
      assert (s + Quotes(b))[..|s + Quotes(b)| - 1] == s + Quotes(b - 1);
      TrimRightQuotes(s, b - 1);
    } else {
      assert s + Quotes(b) == s;
    }
  }

  /** trimQuotes changes nothing on a string that neither starts nor ends
      with a quote. */
  lemma TrimQuotesIdentity(v: string)
    requires Unquoted(v)
    ensures TrimQuotes(v) == v
  {
    TrimQuotesOfQuoted(0, v, 0);
    assert Quotes(0) + v + Quotes(0) == v;
  }

  /** trimQuotes is idempotent. */
  lemma TrimQuotesIdempotent(v: string)
    ensures TrimQuotes(TrimQuotes(v)) == TrimQuotes(v)
  {
    TrimQuotesIdentity(TrimQuotes(v));
  }

  /** The error an operation returns. */
  datatype CallError =
    | Remote(error: RpcError)     // the `error` member of the reply
    | Message(text: string)       // an error raised by the client itself

  /** What a server error turns into. The source formats it as
      "[code] message data"; the model keeps the error itself. */
  function RemoteError(e: RpcError): CallError {
    Remote(e)
  }

  /** An operation's request: an `invoke` envelope naming the operation and
      the target object. Operations without arguments (GenerateOffer, Pause,
      Stop, GetLocalSessionDescriptor, ...) send no `operationParams` key at
      all; the others send their parameter map under it. */
  function InvokeEnvelope(operation: string, objectId: string, operationParams: Option<Envelope>): (r: Envelope)
    ensures r.Keys == InvokeRequest().Keys
    ensures r["method"] == Str("invoke") && r["jsonrpc"] == Str("2.0")
    ensures r["params"].Object?
    ensures operationParams.None? ==> r["params"].fields.Keys == {"operation", "object"}
    ensures operationParams.Some? ==>
              r["params"].fields.Keys == {"operation", "object", "operationParams"} &&
              r["params"].fields["operationParams"] == Object(operationParams.value)
    ensures r["params"].fields["operation"] == Str(operation)
    ensures r["params"].fields["object"] == Str(objectId)
  {
    var params := map["operation" := Str(operation), "object" := Str(objectId)];
    InvokeRequest()["params" := Object(
      match operationParams
      case None => params
      case Some(ps) => params["operationParams" := Object(ps)])]
  }

  /** What the server reads back from an operation's request: the operation,
      the target object and the parameters, if they are well formed. */
  datatype Invocation = Invocation(operation: string, objectId: string, operationParams: Option<Envelope>)

  function ReadInvocation(r: Envelope): Option<Invocation>
  {
    if "method" in r && r["method"] == Str("invoke") && "params" in r && r["params"].Object? then
      var ps := r["params"].fields;
      if "operation" in ps && ps["operation"].Str? && "object" in ps && ps["object"].Str? then
        if "operationParams" !in ps then Some(Invocation(ps["operation"].s, ps["object"].s, None))
        else if ps["operationParams"].Object? then
          Some(Invocation(ps["operation"].s, ps["object"].s, Some(ps["operationParams"].fields)))
        else None
      else None
    else None
  }

  /** An operation's request carries exactly its operation, object and
      parameters: reading them back gives what was put in, and the request
      still reads the same once Request has stamped its id and token on it. */
  lemma InvokeEnvelopeRoundTrip(c: Connection, operation: string, objectId: string, operationParams: Option<Envelope>)
    ensures ReadInvocation(InvokeEnvelope(operation, objectId, operationParams)) ==
            Some(Invocation(operation, objectId, operationParams))
    ensures ReadInvocation(Request(c, InvokeEnvelope(operation, objectId, operationParams)).sent) ==
            Some(Invocation(operation, objectId, operationParams))
  {
  }

  /** SdpEndpoint.ProcessOffer's request: the offer goes through
      setIfNotEmpty into a fresh parameter map, so it is sent only when it is
      not empty, and the map is sent even when it stays empty. */
  function ProcessOfferRequest(objectId: string, offer: string): (r: Envelope)
    ensures "method" in r && r["method"] == Str("invoke")
    ensures "params" in r && r["params"].Object?
    ensures var ps := r["params"].fields;
            ps.Keys == {"operation", "object", "operationParams"} &&
            ps["operation"] == Str("processOffer") && ps["object"] == Str(objectId) &&
            ps["operationParams"].Object? &&
            ("offer" in ps["operationParams"].fields <==> offer != "") &&
            (offer != "" ==> ps["operationParams"].fields == map["offer" := Str(offer)]) &&
            (offer == "" ==> ps["operationParams"].fields == map[])
  {
    InvokeEnvelope("processOffer", objectId, Some(SetIfNotEmpty(map[], "offer", Str(offer))))
  }

  /** The request that goes out for ProcessOffer keeps the operation, the
      object and the offer, which is present exactly when it is non-empty. */
  lemma ProcessOfferSent(c: Connection, objectId: string, offer: string)
    ensures var sent := Request(c, ProcessOfferRequest(objectId, offer)).sent;
            var params := if offer != "" then map["offer" := Str(offer)] else map[];
            ReadInvocation(sent) == Some(Invocation("processOffer", objectId, Some(params)))
  {
  }

  /** The SDP operations (GenerateOffer, ProcessOffer, ProcessAnswer,
      GetLocalSessionDescriptor, GetRemoteSessionDescriptor): the server's
      error, or the raw result value with its surrounding quotes removed. */
  function SdpReply(resp: Response): (r: Result<string, CallError>)
    ensures resp.error.Some? ==> r == Failure(RemoteError(resp.error.value))
    ensures resp.error.None? ==> r.Success? && Unquoted(r.value)
    // the returned text is the middle of the raw value, quotes on either side removed
    ensures resp.error.None? ==>
              var v := resp.result.value;
              exists i, j :: 0 <= i <= j <= |v| && r.value == v[i..j] &&
                v[..i] == Quotes(i) && v[j..] == Quotes(|v| - j)
  {
    if resp.error.Some? then Failure(RemoteError(resp.error.value))
    else Success(TrimQuotes(resp.result.value))
  }

  /** A reply whose value is a text between two quotes, the text itself
      neither starting nor ending with a quote, yields exactly that text. */
  lemma SdpReplyOfStringLiteral(resp: Response, sdp: string)
    requires resp.error.None? && Unquoted(sdp)
    requires resp.result.value == [Quote] + sdp + [Quote]
    ensures SdpReply(resp) == Success(sdp)
  {
    assert resp.result.value == Quotes(1) + sdp + Quotes(1);
    TrimQuotesOfQuoted(1, sdp, 1);
  }

  /** What one connection entry describes; the reply's payload is never
      decoded into it. */
  datatype ElementConnectionData = ElementConnectionData(
    source: string, sink: string, mediaType: string,
    sourceDescription: string, sinkDescription: string)

  /** MediaElement.GetSourceConnections and GetSinkConnections: the server's
      error, or else an empty list. */
  function ConnectionsReply(resp: Response): (r: Result<seq<ElementConnectionData>, CallError>)
    ensures r.Failure? <==> resp.error.Some?
    ensures resp.error.Some? ==> r.error == RemoteError(resp.error.value)
    ensures r.Success? ==> r.value == []
  {
    if resp.error.Some? then Failure(RemoteError(resp.error.value)) else Success([])
  }

  /** The payload of a successful connections reply plays no part. */
  lemma ConnectionsReplyIgnoresPayload(resp: Response, other: RpcResult)
    ensures ConnectionsReply(resp.(result := other)) == ConnectionsReply(resp)
  {
  }

  /** The message GetStats returns for a reply without a value. */
  const StatsValueNil: string := "getStats Response Value was nil"

  /** MediaElement.GetStats: the server's error; else, for an empty value, a
      client error; else whatever decoding the value gives, which is passed
      in as `decoded` (a decoded map, or the decoder's error message). */
  function StatsReply<S>(resp: Response, decoded: Result<S, string>): (r: Result<S, CallError>)
    ensures resp.error.Some? ==> r == Failure(RemoteError(resp.error.value))
    ensures resp.error.None? && resp.result.value == "" ==> r == Failure(Message(StatsValueNil))
    ensures resp.error.None? && resp.result.value != "" ==>
              (r.Success? <==> decoded.Success?) &&
              (decoded.Success? ==> r.value == decoded.value) &&
              (decoded.Failure? ==> r.error == Message(decoded.error))
  {
    if resp.error.Some? then Failure(RemoteError(resp.error.value))
    else if resp.result.value == "" then Failure(Message(StatsValueNil))
    else match decoded
      case Success(stats) => Success(stats)
      case Failure(msg) => Failure(Message(msg))
  }

  /** An empty value is an error even when the server reported none. */
  lemma StatsReplyNeedsValue<S>(resp: Response, decoded: Result<S, string>)
    requires resp.result.value == ""
    ensures StatsReply(resp, decoded).Failure?
  {
  }

  /** The operations that return only an error (Release, Pause, Stop,
      SetLatencyStats, Connect, Disconnect, SetAudioFormat, SetVideoFormat). */
  function ErrorOnlyReply(resp: Response): (r: Option<CallError>)
    ensures r.None? <==> resp.error.None?
    ensures r.Some? ==> r.value == RemoteError(resp.error.value)
  {
    if resp.error.Some? then Some(RemoteError(resp.error.value)) else None
  }

  /** The server's error takes precedence in every operation: when the reply
      carries one, each reply mapping returns exactly that error, and when it
      carries none, none of them returns a server error. */
  lemma ServerErrorTakesPrecedence<S>(resp: Response, decoded: Result<S, string>)
    ensures forall e :: ErrorOnlyReply(resp) == Some(e) ==>
              SdpReply(resp) == Failure(e) && ConnectionsReply(resp) == Failure(e) &&
              StatsReply(resp, decoded) == Failure(e)
    ensures ErrorOnlyReply(resp).None? ==>
              SdpReply(resp).Success? && ConnectionsReply(resp).Success? &&
              (StatsReply(resp, decoded).Failure? ==> StatsReply(resp, decoded).error.Message?)
  {
  }

  datatype ObjectSubscribed = ObjectSubscribed(conn: Connection, err: Option<CallError>)

  /** MediaObject.Subscribe, once the server has answered the subscribe
      request: on an error reply return the error and register nothing;
      otherwise register a subscription for (eventType, the object's id). */
  function SubscribeObject(c: Connection, reply: Response, eventType: string, objectId: string): (r: ObjectSubscribed)
    ensures reply.error.Some? ==> r.err == Some(RemoteError(reply.error.value)) && r.conn == c
    ensures reply.error.None? ==> r.err.None? && Subscribed(r.conn, eventType, objectId) &&
                                  InboxOf(r.conn, eventType, objectId) == []
    ensures forall t, s :: (t != eventType || s != objectId) ==>
              (Subscribed(r.conn, t, s) <==> Subscribed(c, t, s))
    ensures forall t, s :: (t != eventType || s != objectId) && Subscribed(c, t, s) ==>
              InboxOf(r.conn, t, s) == InboxOf(c, t, s)
    ensures r.conn.clients == c.clients && r.conn.clientId == c.clientId
    ensures r.conn.sessionId == c.sessionId && r.conn.closeRequest == c.closeRequest
  {
    if reply.error.Some? then ObjectSubscribed(c, Some(RemoteError(reply.error.value)))
    else ObjectSubscribed(Subscribe(c, eventType, objectId), None)
  }

  /** A failed subscribe leaves the subscription table as it was: a later
      notification for that key is not routed to any subscription. */
  lemma FailedSubscribeRegistersNothing(c: Connection, reply: Response, eventType: string, objectId: string, note: Response)
    requires reply.error.Some? && !Subscribed(c, eventType, objectId)
    requires c.closeRequest.None? && note.id !in c.clients
    requires note.data == EventData(eventType, objectId)
    ensures Step(SubscribeObject(c, reply, eventType, objectId).conn, Frame(note)).dispatch == Dropped(note)
  {
  }
}
