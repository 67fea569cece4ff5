/**
 The helpers every media object uses to build its requests: the prepared
 `create`/`invoke` envelopes, the option merge, the filter that copies only
 non-empty parameters, and the shortening of a Go type name to the media
 server's type name.
 */
module Base {
  import opened Rpc

  /** The prepared `create` request: protocol version, method, no parameters. */
  function CreateRequest(): (r: Envelope)
    ensures r.Keys == {"jsonrpc", "method", "params"}
    ensures r["jsonrpc"] == Str("2.0") && r["method"] == Str("create")
    ensures r["params"] == Object(map[])
  {
    map["jsonrpc" := Str("2.0"), "method" := Str("create"), "params" := Object(map[])]
  }

  /** The prepared `invoke` request: a create request with its method renamed. */
  function InvokeRequest(): (r: Envelope)
    ensures r.Keys == CreateRequest().Keys
    ensures r["method"] == Str("invoke")
    ensures forall k :: k in r && k != "method" ==> r[k] == CreateRequest()[k]
  {
    CreateRequest()["method" := Str("invoke")]
  }

  /** mergeOptions: copy every entry of `b` into `a`, in the iteration order
      of `b`; entries of `b` win over entries of `a` with the same key. */
  method MergeOptions(a: Envelope, b: Envelope) returns (r: Envelope)
    ensures r.Keys == a.Keys + b.Keys
    ensures forall k :: k in b ==> r[k] == b[k]
    ensures forall k :: k in a && k !in b ==> r[k] == a[k]
  {
    r := a;
    var todo := b.Keys;
    while todo != {}
      invariant todo <= b.Keys
      invariant r.Keys == a.Keys + (b.Keys - todo)
      invariant forall k :: k in b && k !in todo ==> r[k] == b[k]
      invariant forall k :: k in a && k !in b ==> r[k] == a[k]
      invariant forall k :: k in a && k in todo ==> r[k] == a[k]
      decreases todo
    {
      var k :| k in todo;
      r := r[k := b[k]];
      todo := todo - {k};
    }
  }

  /** Merging is the right-biased union of the two maps, so merging the same
      options twice changes nothing more. */
  lemma MergeOptionsIsUnion(a: Envelope, b: Envelope)
    ensures forall r: Envelope ::
              (r.Keys == a.Keys + b.Keys &&
               (forall k :: k in b ==> r[k] == b[k]) &&
               (forall k :: k in a && k !in b ==> r[k] == a[k])) ==> r == a + b
    ensures (a + b) + b == a + b
  {
  }

  /** What setIfNotEmpty stores for `t`, if anything, exactly as its type
      switch decides. In the `case int, float64` arm `v` is an interface value,
      and `v != 0` compares it with the int 0: a float64 0.0 has a different
      dynamic type, so every float is stored. */
  function StoredAsWritten(t: Value): Option<Value>
  {
    match t
    case Str(s) => if s != "" then Some(t) else None
    case Int(i) => if i != 0 then Some(t) else None
    case Float(_) => Some(t)
    case Bool(b) => if b then Some(t) else None
    case Stringer(text) => if text != "" then Some(Str(text)) else None
    case _ => None
  }

  /** setIfNotEmpty as written: store `t` (a Stringer as its text) under
      `name` unless it is empty for its type; values of any other type are
      ignored, as the type switch has no default case. */
  function SetIfNotEmpty(param: Envelope, name: string, t: Value): (r: Envelope)
    // no other key changes
    ensures forall k :: k != name ==> (k in r <==> k in param) && (k in param ==> r[k] == param[k])
    ensures t.Str? ==> (t.s != "" ==> r == param[name := t]) && (t.s == "" ==> r == param)
    ensures t.Int? ==> (t.i != 0 ==> r == param[name := t]) && (t.i == 0 ==> r == param)
    ensures t.Bool? ==> (t.b ==> r == param[name := t]) && (!t.b ==> r == param)
    ensures t.Stringer? ==> (t.text != "" ==> r == param[name := Str(t.text)]) && (t.text == "" ==> r == param)
    ensures t.Float? ==> r == param[name := t]
    ensures t.Object? || t.Nil? || t.Opaque? ==> r == param
  {
    match StoredAsWritten(t)
    case Some(v) => param[name := v]
    case None => param
  }

  /** The quirk: a float64 zero is sent although it is empty. */
  lemma SetIfNotEmptyStoresFloatZero(param: Envelope, name: string)
    ensures var r := SetIfNotEmpty(param, name, Float(0.0));
            name in r && IsZeroValue(r[name])
  {
  }

  /** What setIfNotEmpty is evidently meant to store: nothing for the zero
      value of any of its types. */
  function StoredIntended(t: Value): Option<Value>
  {
    match t
    case Float(f) => if f != 0.0 then Some(t) else None
    case _ => StoredAsWritten(t)
  }

  /** setIfNotEmpty with the float64 arm comparing against 0.0. */
  function SetIfNotEmptyIntended(param: Envelope, name: string, t: Value): (r: Envelope)
    ensures forall k :: k != name ==> (k in r <==> k in param) && (k in param ==> r[k] == param[k])
    // the value stored under `name`, if any, is never a zero value
    ensures name in r && (name !in param || r[name] != param[name]) ==> !IsZeroValue(r[name])
    // a non-zero string, number or true, and a Stringer with text, is stored
    ensures (t.Str? || t.Int? || t.Float? || t.Bool?) && !IsZeroValue(t) ==> r == param[name := t]
    ensures t.Stringer? && t.text != "" ==> r == param[name := Str(t.text)]
    ensures IsZeroValue(t) || t.Object? || t.Nil? || t.Opaque? ==> r == param
  {
    match StoredIntended(t)
    case Some(v) => param[name := v]
    case None => param
  }

  /** Both versions agree on every value that is not a float. */
  lemma SetIfNotEmptyAgreesExceptFloat(param: Envelope, name: string, t: Value)
    requires !t.Float?
    ensures SetIfNotEmpty(param, name, t) == SetIfNotEmptyIntended(param, name, t)
  {
  }

  /** Applying the filter twice with the same value is the same as once. */
  lemma SetIfNotEmptyIdempotent(param: Envelope, name: string, t: Value)
    ensures SetIfNotEmpty(SetIfNotEmpty(param, name, t), name, t) == SetIfNotEmpty(param, name, t)
    ensures SetIfNotEmptyIntended(SetIfNotEmptyIntended(param, name, t), name, t) ==
            SetIfNotEmptyIntended(param, name, t)
  {
  }

  /** The index of the first `sep` in `s`. */
  function FirstIndex(s: string, sep: char): (i: nat)
    requires sep in s
    ensures i < |s| && s[i] == sep && sep !in s[..i]
  {
    if s[0] == sep then 0
    else
      assert sep in s[1..] by {
        var k :| 0 <= k < |s| && s[k] == sep;
        assert s[1..][k - 1] == sep;
      }
      var i := 1 + FirstIndex(s[1..], sep);
      assert s[..i] == [s[0]] + s[1..][..i - 1];
      i
  }

  /** strings.Split for a one-character separator: the pieces between
      separators, in order; never empty. */
  function Split(s: string, sep: char): (parts: seq<string>)
    ensures |parts| >= 1
    ensures forall i :: 0 <= i < |parts| ==> sep !in parts[i]
    ensures sep !in s ==> parts == [s]
    decreases |s|
  {
    if sep !in s then [s]
    else
      var i := FirstIndex(s, sep);
      [s[..i]] + Split(s[i + 1..], sep)
  }

  /** The last piece of a split. */
  function LastPiece(s: string, sep: char): string
  {
    var parts := Split(s, sep);
    parts[|parts| - 1]
  }

  /** The last piece of a split is the suffix after the last separator. */
  lemma {:induction false} SplitLast(s: string, sep: char)
    ensures |LastPiece(s, sep)| <= |s|
    ensures s[|s| - |LastPiece(s, sep)|..] == LastPiece(s, sep)
    ensures |LastPiece(s, sep)| < |s| ==> s[|s| - |LastPiece(s, sep)| - 1] == sep
    decreases |s|
  {
    if sep in s {
      var i := FirstIndex(s, sep);
      var t := s[i + 1..];
      SplitLast(t, sep);
      var last := LastPiece(t, sep);
      assert LastPiece(s, sep) == last;
      var k := |t| - |last|;
      assert |s| - |last| == i + 1 + k;
      assert s[i + 1 + k..] == t[k..];
      if k > 0 {
        assert s[i + k] == t[k - 1];
      } else {
        assert s[i + k] == sep;
      }
    }
  }

  /** strings.Join for a one-character separator. */
  function Join(parts: seq<string>, sep: char): string
    requires |parts| >= 1
  {
    if |parts| == 1 then parts[0] else parts[0] + [sep] + Join(parts[1..], sep)
  }

  /** Joining the pieces of a split gives back the original string. */
  lemma {:induction false} JoinSplit(s: string, sep: char)
    ensures Join(Split(s, sep), sep) == s
    decreases |s|
  {
    if sep in s {
      var i := FirstIndex(s, sep);
      JoinSplit(s[i + 1..], sep);
      assert s == s[..i] + [sep] + s[i + 1..];
    }
  }

  /** The first separator after a separator-free piece is the one right
      after it. */
  lemma FirstIndexAfterPiece(piece: string, sep: char, rest: string)
    requires sep !in piece
    ensures sep in piece + [sep] + rest
    ensures FirstIndex(piece + [sep] + rest, sep) == |piece|
  {
    var s := piece + [sep] + rest;
    assert s[|piece|] == sep;
    assert s[..|piece|] == piece;
  }

  /** Splitting a join of separator-free pieces gives back the pieces. */
  lemma {:induction false} SplitJoin(parts: seq<string>, sep: char)
    requires |parts| >= 1
    requires forall i :: 0 <= i < |parts| ==> sep !in parts[i]
    ensures Split(Join(parts, sep), sep) == parts
    decreases |parts|
  {
    if |parts| > 1 {
      var rest := Join(parts[1..], sep);
      var s := parts[0] + [sep] + rest;
      assert Join(parts, sep) == s;
      FirstIndexAfterPiece(parts[0], sep, rest);
      var i := |parts[0]|;
      assert s[..i] == parts[0];
      assert s[i + 1..] == rest;
      SplitJoin(parts[1..], sep);
      assert Split(s, sep) == [parts[0]] + parts[1..];
    }
  }

  /** getMediaElementType: the part of a type name after its last '.',
      e.g. "*kurento.WebRtcEndpoint" gives "WebRtcEndpoint". */
  function MediaElementType(typeName: string): (r: string)
    ensures '.' !in r
    ensures |r| <= |typeName| && typeName[|typeName| - |r|..] == r
    ensures |r| < |typeName| ==> typeName[|typeName| - |r| - 1] == '.'
    ensures '.' !in typeName ==> r == typeName
  {
    SplitLast(typeName, '.');
    LastPiece(typeName, '.')
  }
}
