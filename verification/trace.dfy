/**
 Runs of the connection over a sequence of caller operations and reader-loop
 iterations, and what holds over a whole run when every reader-loop
 iteration, delivery included, is one atomic step: request ids are handed out
 as 1, 2, 3, ...; every reply goes to a request that was actually sent and
 still pending; no request receives two replies; and a subscription
 receives its notifications in the order the reader loop routed them.
 */
module Trace {
  import opened Rpc
  import opened Websocket

  /** One thing that can happen to a connection. */
  datatype Event =
    | Send(req: Envelope)
    | Receive(input: Incoming)
    | Sub(eventType: string, elementId: string)
    | Unsub(eventType: string, elementId: string)
    | CloseCall

  /** What the event visibly did. */
  datatype Observed =
    | Issued(id: nat)
    | Routed(dispatch: Dispatch)
    | Registered
    | Unregistered
    | Panicked(panic: Panic)
    | CloseRequested

  /** A reply handed to the caller waiting on a pending entry. */
  predicate IsDelivery(o: Observed) {
    o.Routed? && o.dispatch.ToClient?
  }

  function Apply(c: Connection, e: Event): (r: (Connection, Observed))
    ensures Valid(c) ==> Valid(r.0)
    ensures r.1.Issued? ==> r.1.id == c.clientId + 1 && r.0.clientId == r.1.id
    ensures !r.1.Issued? ==> r.0.clientId == c.clientId
    // a pending entry appears only for the id this event issued
    ensures forall id :: id in r.0.clients && id !in c.clients ==> r.1 == Issued(id)
    // a delivery consumes a pending entry
    ensures IsDelivery(r.1) ==> r.1.dispatch.id in c.clients && r.1.dispatch.id !in r.0.clients
  {
    match e
    case Send(req) =>
      var q := Request(c, req);
      (q.conn, Issued(q.id))
    case Receive(input) =>
      var s := Step(c, input);
      (s.conn, Routed(s.dispatch))
    case Sub(t, el) =>
      (Subscribe(c, t, el), Registered)
    case Unsub(t, el) =>
      (match Unsubscribe(c, t, el)
       case Success(c1) => (c1, Unregistered)
       case Failure(p) => (c, Panicked(p)))
    case CloseCall =>
      (Close(c), CloseRequested)
  }

  /** Apply the events in order. A panic ends the program, so nothing after it
      is observed. */
  function Run(c: Connection, es: seq<Event>): (r: (Connection, seq<Observed>))
    ensures |r.1| <= |es|
    decreases |es|
  {
    if es == [] then (c, [])
    else
      var step := Apply(c, es[0]);
      if step.1.Panicked? then (step.0, [step.1])
      else
        var rest := Run(step.0, es[1..]);
        (rest.0, [step.1] + rest.1)
  }

  /** The number of ids issued in a prefix of a run. */
  function CountIssued(os: seq<Observed>): nat
  {
    if os == [] then 0
    else (if os[0].Issued? then 1 else 0) + CountIssued(os[1..])
  }

  /** The ids issued in `os` are `start` + 1, `start` + 2, ... in order. */
  predicate IssuedConsecutively(start: nat, os: seq<Observed>) {
    forall i :: 0 <= i < |os| && os[i].Issued? ==> os[i].id == start + CountIssued(os[..i]) + 1
  }

  /** The ids issued in `os` lie above `start` and strictly increase. */
  predicate IssuedIncreasing(start: nat, os: seq<Observed>) {
    && (forall i :: 0 <= i < |os| && os[i].Issued? ==> os[i].id > start)
    && (forall i, j :: 0 <= i < j < |os| && os[i].Issued? && os[j].Issued? ==> os[i].id < os[j].id)
  }

  /** Every delivery in `os` answers an id in `pending` or one issued earlier in `os`. */
  predicate DeliveredToRequests(pending: set<nat>, os: seq<Observed>) {
    forall j :: 0 <= j < |os| && IsDelivery(os[j]) ==>
      os[j].dispatch.id in pending || exists i :: 0 <= i < j && os[i] == Issued(os[j].dispatch.id)
  }

  /** Every delivery in `os` answers an id in `pending` or one above `start`. */
  predicate DeliveredPendingOrFresh(pending: set<nat>, start: nat, os: seq<Observed>) {
    forall j :: 0 <= j < |os| && IsDelivery(os[j]) ==>
      os[j].dispatch.id in pending || os[j].dispatch.id > start
  }

  /** No two deliveries in `os` answer the same id. */
  predicate DeliveredAtMostOnce(os: seq<Observed>) {
    forall i, j :: 0 <= i < j < |os| && IsDelivery(os[i]) && IsDelivery(os[j]) ==>
      os[i].dispatch.id != os[j].dispatch.id
  }

  /** The request counter never goes back over a run, so an id once handed
      out is never handed out again. */
  lemma {:induction false} RunClientIdGrows(c: Connection, es: seq<Event>)
    ensures Run(c, es).0.clientId >= c.clientId
    decreases |es|
  {
    if es != [] {
      var step := Apply(c, es[0]);
      if !step.1.Panicked? {
        RunClientIdGrows(step.0, es[1..]);
      }
    }
  }

  /** The n-th id issued in a run is the counter at the start plus n: from a
      fresh connection the ids are exactly 1, 2, 3, ... */
  lemma {:induction false} RunIssuesConsecutiveIds(c: Connection, es: seq<Event>)
    ensures IssuedConsecutively(c.clientId, Run(c, es).1)
    decreases |es|
  {
    if es != [] {
      var step := Apply(c, es[0]);
      if !step.1.Panicked? {
        var rest := Run(step.0, es[1..]);
        RunIssuesConsecutiveIds(step.0, es[1..]);
        var os := [step.1] + rest.1;
        assert os == Run(c, es).1;
        assert os[..0] == [];
        forall i | 0 < i < |os| && os[i].Issued?
          ensures os[i].id == c.clientId + CountIssued(os[..i]) + 1
        {
          assert os[i] == rest.1[i - 1];
          assert os[..i][0] == step.1;
          assert os[..i][1..] == rest.1[..i - 1];
        }
      } else {
        assert Run(c, es).1 == [step.1];
      }
    }
  }

  /** Ids issued later in a run are strictly greater than earlier ones, and
      all are greater than the counter at the start. */
  lemma {:induction false} RunIssuesIncreasingIds(c: Connection, es: seq<Event>)
    ensures IssuedIncreasing(c.clientId, Run(c, es).1)
    decreases |es|
  {
    if es != [] {
      var step := Apply(c, es[0]);
      if !step.1.Panicked? {
        var rest := Run(step.0, es[1..]);
        RunIssuesIncreasingIds(step.0, es[1..]);
        var os := [step.1] + rest.1;
        assert os == Run(c, es).1;
        forall i | 0 < i < |os| && os[i].Issued?
          ensures os[i].id > c.clientId
        {
          assert os[i] == rest.1[i - 1];
        }
        forall i, j | 0 <= i < j < |os| && os[i].Issued? && os[j].Issued?
          ensures os[i].id < os[j].id
        {
          assert os[j] == rest.1[j - 1];
          if i > 0 {
            assert os[i] == rest.1[i - 1];
          }
        }
      } else {
        assert Run(c, es).1 == [step.1];
      }
    }
  }

  /** Every reply delivered in a run goes to an id that was pending at the
      start or that an earlier event of the run issued. */
  lemma {:induction false} RunDeliversOnlyToRequests(c: Connection, es: seq<Event>)
    ensures DeliveredToRequests(c.clients, Run(c, es).1)
    decreases |es|
  {
    if es != [] {
      var step := Apply(c, es[0]);
      if !step.1.Panicked? {
        var rest := Run(step.0, es[1..]);
        RunDeliversOnlyToRequests(step.0, es[1..]);
        var os := [step.1] + rest.1;
        assert os == Run(c, es).1;
        forall j | 0 < j < |os| && IsDelivery(os[j])
          ensures os[j].dispatch.id in c.clients ||
                  exists i :: 0 <= i < j && os[i] == Issued(os[j].dispatch.id)
        {
          var id := os[j].dispatch.id;
          assert os[j] == rest.1[j - 1];
          if id in step.0.clients {
            if id !in c.clients {
              assert os[0] == Issued(id);
            }
          } else {
            var i' :| 0 <= i' < j - 1 && rest.1[i'] == Issued(id);
            assert os[i' + 1] == Issued(id);
          }
        }
      } else {
        assert Run(c, es).1 == [step.1];
      }
    }
  }

  /** A delivery in a run is to an id pending at the start or issued during
      the run, and issued ids lie above the counter at the start. */
  lemma {:induction false} RunDeliversPendingOrFresh(c: Connection, es: seq<Event>)
    requires Valid(c)
    ensures DeliveredPendingOrFresh(c.clients, c.clientId, Run(c, es).1)
    decreases |es|
  {
    if es != [] {
      var step := Apply(c, es[0]);
      if !step.1.Panicked? {
        var rest := Run(step.0, es[1..]);
        RunDeliversPendingOrFresh(step.0, es[1..]);
        var os := [step.1] + rest.1;
        assert os == Run(c, es).1;
        forall j | 0 < j < |os| && IsDelivery(os[j])
          ensures os[j].dispatch.id in c.clients || os[j].dispatch.id > c.clientId
        {
          var id := os[j].dispatch.id;
          assert os[j] == rest.1[j - 1];
          if id in step.0.clients && id !in c.clients {
            assert step.1 == Issued(id);
          }
        }
      } else {
        assert Run(c, es).1 == [step.1];
      }
    }
  }

  /** At-most-once delivery: no two replies in a run go to the same request. */
  lemma {:induction false} RunDeliversAtMostOnce(c: Connection, es: seq<Event>)
    requires Valid(c)
    ensures DeliveredAtMostOnce(Run(c, es).1)
    decreases |es|
  {
    if es != [] {
      var step := Apply(c, es[0]);
      if !step.1.Panicked? {
        var rest := Run(step.0, es[1..]);
        RunDeliversAtMostOnce(step.0, es[1..]);
        RunDeliversPendingOrFresh(step.0, es[1..]);
        var os := [step.1] + rest.1;
        assert os == Run(c, es).1;
        forall i, j | 0 <= i < j < |os| && IsDelivery(os[i]) && IsDelivery(os[j])
          ensures os[i].dispatch.id != os[j].dispatch.id
        {
          assert os[j] == rest.1[j - 1];
          if i > 0 {
            assert os[i] == rest.1[i - 1];
          } else {
            var first := os[0].dispatch.id;
            assert first in c.clients && first !in step.0.clients;
          }
        }
      } else {
        assert Run(c, es).1 == [step.1];
      }
    }
  }

  /** From a fresh connection: ids are issued as 1, 2, 3, ...; every
      delivered reply answers a request issued earlier in the same run; and no
      request is answered twice. */
  lemma FreshConnectionPairsRepliesWithRequests(es: seq<Event>)
    ensures IssuedConsecutively(0, Run(NewConnection(), es).1)
    ensures DeliveredToRequests({}, Run(NewConnection(), es).1)
    ensures DeliveredAtMostOnce(Run(NewConnection(), es).1)
  {
    RunIssuesConsecutiveIds(NewConnection(), es);
    RunDeliversOnlyToRequests(NewConnection(), es);
    RunDeliversAtMostOnce(NewConnection(), es);
  }

  /** The notifications a run routes to (eventType, source), in order. */
  function RoutedTo(os: seq<Observed>, eventType: string, source: string): seq<Response>
  {
    if os == [] then []
    else
      (if os[0].Routed? && os[0].dispatch.ToSubscriber? &&
          os[0].dispatch.eventType == eventType && os[0].dispatch.source == source
       then [os[0].dispatch.response] else [])
      + RoutedTo(os[1..], eventType, source)
  }

  /** Whether an event subscribes or unsubscribes exactly this key. */
  predicate Touches(e: Event, eventType: string, source: string) {
    (e.Sub? && e.eventType == eventType && e.elementId == source) ||
    (e.Unsub? && e.eventType == eventType && e.elementId == source)
  }

  /** A subscription nobody re-subscribes or unsubscribes stays in place for
      the whole run and, with each hand-off an atomic step, receives exactly
      the notifications routed to it, in the order the reader loop saw them. */
  lemma {:induction false} SubscriptionReceivesInOrder(c: Connection, es: seq<Event>, eventType: string, source: string)
    requires Subscribed(c, eventType, source)
    requires forall k :: 0 <= k < |es| ==> !Touches(es[k], eventType, source)
    ensures Subscribed(Run(c, es).0, eventType, source)
    ensures InboxOf(Run(c, es).0, eventType, source) ==
            InboxOf(c, eventType, source) + RoutedTo(Run(c, es).1, eventType, source)
    decreases |es|
  {
    if es != [] {
      var step := Apply(c, es[0]);
      assert !Touches(es[0], eventType, source);
      assert Subscribed(step.0, eventType, source);
      assert InboxOf(step.0, eventType, source) ==
             InboxOf(c, eventType, source) + RoutedTo([step.1], eventType, source);
      if !step.1.Panicked? {
        var rest := Run(step.0, es[1..]);
        SubscriptionReceivesInOrder(step.0, es[1..], eventType, source);
        var os := [step.1] + rest.1;
        assert os[1..] == rest.1;
        assert RoutedTo(os, eventType, source) ==
               RoutedTo([step.1], eventType, source) + RoutedTo(rest.1, eventType, source);
      }
    }
  }
}
