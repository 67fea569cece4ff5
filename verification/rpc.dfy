/**
 The JSON-RPC vocabulary shared by the connection and the media-object helpers:
 dynamic parameter values, request envelopes, server replies and notifications,
 and the Option/Result wrappers used for error paths.
 */
module Rpc {

  datatype Option<+T> = None | Some(value: T)

  datatype Result<+T, +E> = Success(value: T) | Failure(error: E)

  /** A value stored in a `map[string]interface{}`: the dynamic types the
      client actually puts into request envelopes and parameter maps. */
  datatype Value =
    | Str(s: string)
    | Int(i: int)
    | Float(f: real)
    | Bool(b: bool)
      // a non-nil value implementing fmt.Stringer (media objects, enum strings),
      // with the text its String method returns
    | Stringer(text: string)
    | Object(fields: map<string, Value>)
      // the nil interface value
    | Nil
      // any other type, such as a capabilities struct passed by value
    | Opaque

  /** An outgoing request, and every other `map[string]interface{}` parameter bag. */
  type Envelope = map<string, Value>

  /** The zero values of Go's basic types, as they appear behind an interface. */
  predicate IsZeroValue(v: Value) {
    v == Str("") || v == Int(0) || v == Float(0.0) || v == Bool(false)
  }

  /** The `error` member of a reply. */
  datatype RpcError = RpcError(code: int, message: string, data: map<string, Value>)

  /** The `result` member of a reply: `value` is the raw, undecoded JSON text. */
  datatype RpcResult = RpcResult(value: string, sessionId: string, object: string)

  /** The `params.value.data` member of an `onEvent` notification (only the
      two fields that take part in routing). */
  datatype EventData = EventData(eventType: string, source: string)

  /** A decoded inbound frame. A member the server leaves out decodes to its
      zero value: a notification has `id` 0 and an empty `sessionId`. */
  datatype Response = Response(
    id: nat,
    result: RpcResult,
    error: Option<RpcError>,
    methodName: string,
    data: EventData)

  /** The method name the server uses for pushed notifications. */
  const OnEvent: string := "onEvent"
}
