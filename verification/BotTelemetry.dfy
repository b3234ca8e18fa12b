/** A WebSocket bot: it sends orders, keeps those without a response in a map, and emits one
    telemetry event for the first response to each. */
module BotTelemetry {
  import opened Events
  import OrderBooks
  import Validation

  datatype Order = Order(orderId: string, sessionId: string, side: string, orderType: string, price: Float, qty: Float,
                         seqNo: int)

  datatype Response = Response(orderId: string, status: string, fillPrice: Float, fillQty: Float)

  datatype Pending = Pending(order: Order, tSend: int)

  /** What the trading loop does: an order written to the socket, or a response taken from it. */
  datatype Act =
    | Sent(order: Order, tSend: int)
    | Got(response: Response, tAck: int)

  /** The telemetry event of a response; all but the outcome comes from the order. */
  function EventFor(sessionId: string, p: Pending, r: Response, tAck: int): Event {
    Event(sessionId, r.orderId, r.status, p.tSend, tAck, tAck - p.tSend, p.order.side, p.order.orderType,
          p.order.price, p.order.qty, r.fillPrice, r.fillQty, p.order.seqNo, false)
  }

  /** The event gives the order and the response back, with both times and the latency between them. */
  ghost predicate Reports(e: Event, order: Order, tSend: int, r: Response, tAck: int) {
    && Order(e.orderId, e.sessionId, e.side, e.orderType, e.price, e.qty, e.seqNo) == order
    && Response(e.orderId, e.eventType, e.fillPrice, e.fillQty) == r
    && e.tSendNs == tSend && e.tAckNs == tAck && e.latencyNs == e.tAckNs - e.tSendNs
    && !e.violation
  }

  lemma EventReports(sessionId: string, p: Pending, r: Response, tAck: int)
    requires r.orderId == p.order.orderId && p.order.sessionId == sessionId
    ensures Reports(EventFor(sessionId, p, r, tAck), p.order, p.tSend, r, tAck)
  {
  }

  // ---- what the log says -----------------------------------------------------------------

  predicate Mentions(a: Act, id: string) {
    match a
    case Sent(order, _) => order.orderId == id
    case Got(response, _) => response.orderId == id
  }

  /** The sending at place i waits for an answer after the log. */
  ghost predicate Awaits(log: seq<Act>, i: int, id: string) {
    && 0 <= i < |log| && log[i].Sent? && log[i].order.orderId == id
    && forall j :: i < j < |log| ==> !Mentions(log[j], id)
  }

  ghost predicate Waiting(log: seq<Act>, id: string) {
    exists i :: Awaits(log, i, id)
  }

  /** The events: one for each response that answers a sending, and no others. */
  ghost function EventsOf(log: seq<Act>, sessionId: string): seq<Event> {
    if log == [] then []
    else
      var init, last := log[..|log| - 1], log[|log| - 1];
      if last.Got? && Waiting(init, last.response.orderId) then
        var i :| Awaits(init, i, last.response.orderId);
        EventsOf(init, sessionId) + [EventFor(sessionId, Pending(log[i].order, log[i].tSend), last.response, last.tAck)]
      else EventsOf(init, sessionId)
  }

  lemma AwaitsUnique(log: seq<Act>, i: int, j: int, id: string)
    requires Awaits(log, i, id) && Awaits(log, j, id)
    ensures i == j
  {
    if i < j { assert Mentions(log[j], id); }
    if j < i { assert Mentions(log[i], id); }
  }

  /** The map of unanswered orders says which sending each of them is. */
  ghost predicate Tracks(pending: map<string, Pending>, log: seq<Act>) {
    && (forall id :: id in pending <==> Waiting(log, id))
    && (forall i, id :: Awaits(log, i, id) && id in pending ==> pending[id] == Pending(log[i].order, log[i].tSend))
  }

  lemma PendingUnderOwnId(pending: map<string, Pending>, log: seq<Act>, id: string)
    requires Tracks(pending, log) && id in pending
    ensures pending[id].order.orderId == id
  {
    var i :| Awaits(log, i, id);
  }

  lemma AwaitsAfter(log: seq<Act>, a: Act, id: string)
    ensures forall i :: Awaits(log + [a], i, id)
                        <==> if Mentions(a, id) then a.Sent? && i == |log| else Awaits(log, i, id)
  {
    forall i ensures Awaits(log + [a], i, id)
                     <==> if Mentions(a, id) then a.Sent? && i == |log| else Awaits(log, i, id)
    {
      if 0 <= i < |log| {
        assert forall j :: i < j < |log| ==> (log + [a])[j] == log[j];
        if Awaits(log + [a], i, id) { assert !Mentions((log + [a])[|log|], id); }
      }
    }
  }

  lemma SendTracked(pending: map<string, Pending>, log: seq<Act>, order: Order, tSend: int)
    requires Tracks(pending, log)
    ensures Tracks(pending[order.orderId := Pending(order, tSend)], log + [Sent(order, tSend)])
  {
    var log' := log + [Sent(order, tSend)];
    forall id ensures id in pending[order.orderId := Pending(order, tSend)] <==> Waiting(log', id) {
      AwaitsAfter(log, Sent(order, tSend), id);
      if id == order.orderId { assert Awaits(log', |log|, id); }
      else if Waiting(log, id) { var i :| Awaits(log, i, id); assert Awaits(log', i, id); }
    }
    forall i, id | Awaits(log', i, id)
      ensures if id == order.orderId then i == |log| else Awaits(log, i, id)
    {
      AwaitsAfter(log, Sent(order, tSend), id);
    }
    assert log'[|log|] == Sent(order, tSend);
  }

  lemma ResponseTracked(pending: map<string, Pending>, log: seq<Act>, r: Response, tAck: int)
    requires Tracks(pending, log)
    ensures Tracks(pending - {r.orderId}, log + [Got(r, tAck)])
  {
    var log' := log + [Got(r, tAck)];
    forall id ensures id in pending - {r.orderId} <==> Waiting(log', id) {
      AwaitsAfter(log, Got(r, tAck), id);
      if id != r.orderId && Waiting(log, id) { var i :| Awaits(log, i, id); assert Awaits(log', i, id); }
    }
    forall i, id | Awaits(log', i, id) ensures id != r.orderId && Awaits(log, i, id) {
      AwaitsAfter(log, Got(r, tAck), id);
    }
  }

  lemma SendEmitsNothing(log: seq<Act>, order: Order, tSend: int, sessionId: string)
    ensures EventsOf(log + [Sent(order, tSend)], sessionId) == EventsOf(log, sessionId)
  {
    assert (log + [Sent(order, tSend)])[..|log|] == log;
  }

  /** A response emits an event exactly when it is the first since its order was last sent, and the
      event carries that sending's fields. */
  lemma ResponseEmits(pending: map<string, Pending>, log: seq<Act>, r: Response, tAck: int, sessionId: string)
    requires Tracks(pending, log)
    ensures EventsOf(log + [Got(r, tAck)], sessionId)
            == if r.orderId in pending then EventsOf(log, sessionId) + [EventFor(sessionId, pending[r.orderId], r, tAck)]
               else EventsOf(log, sessionId)
  {
    assert (log + [Got(r, tAck)])[..|log|] == log;
    if Waiting(log, r.orderId) {
      forall i, j | Awaits(log, i, r.orderId) && Awaits(log, j, r.orderId) ensures i == j {
        AwaitsUnique(log, i, j, r.orderId);
      }
      var i :| Awaits(log, i, r.orderId);
      assert (log + [Got(r, tAck)])[i] == log[i];
    }
  }

  /** The event reports the sending at i and the response at j, its first answer. */
  ghost predicate ReportsAnswer(log: seq<Act>, e: Event, i: int, j: int) {
    && 0 <= i < j < |log| && log[i].Sent? && log[j].Got? && log[i].order.orderId == log[j].response.orderId
    && (forall k :: i < k < j ==> !Mentions(log[k], log[i].order.orderId))
    && Reports(e, log[i].order, log[i].tSend, log[j].response, log[j].tAck)
  }

  /** A bot sends orders of its own session only. */
  ghost predicate OwnOrders(log: seq<Act>, sessionId: string) {
    forall i :: 0 <= i < |log| && log[i].Sent? ==> log[i].order.sessionId == sessionId
  }

  lemma AnswerStays(log: seq<Act>, a: Act, e: Event, i: int, j: int)
    requires ReportsAnswer(log, e, i, j)
    ensures ReportsAnswer(log + [a], e, i, j)
  {
    assert forall k :: 0 <= k < |log| ==> (log + [a])[k] == log[k];
  }

  lemma EventsGrow(log: seq<Act>, last: Act, sessionId: string)
    ensures EventsOf(log, sessionId) <= EventsOf(log + [last], sessionId)
  {
    assert (log + [last])[..|log|] == log;
  }

  /** Every emitted event reports some sending and its first answer, field by field. */
  lemma {:induction false} EventsReportAnswers(log: seq<Act>, sessionId: string, n: nat)
    requires OwnOrders(log, sessionId) && n < |EventsOf(log, sessionId)|
    ensures exists i, j :: ReportsAnswer(log, EventsOf(log, sessionId)[n], i, j)
  {
    var init, last := log[..|log| - 1], log[|log| - 1];
    assert log == init + [last];
    EventsGrow(init, last, sessionId);
    if n < |EventsOf(init, sessionId)| {
      EventsReportAnswers(init, sessionId, n);
      var i, j :| ReportsAnswer(init, EventsOf(init, sessionId)[n], i, j);
      AnswerStays(init, last, EventsOf(init, sessionId)[n], i, j);
    } else {
      var i := NewestAnswer(init, last, sessionId);
      assert ReportsAnswer(log, EventsOf(log, sessionId)[n], i, |init|);
    }
  }

  lemma NewestAnswer(log: seq<Act>, last: Act, sessionId: string) returns (i: int)
    requires OwnOrders(log, sessionId) && |EventsOf(log + [last], sessionId)| > |EventsOf(log, sessionId)|
    ensures var events := EventsOf(log + [last], sessionId);
            events == EventsOf(log, sessionId) + [events[|events| - 1]]
            && ReportsAnswer(log + [last], events[|events| - 1], i, |log|)
  {
    assert (log + [last])[..|log|] == log;
    var id := last.response.orderId;
    i :| Awaits(log, i, id);
    forall k | Awaits(log, k, id) ensures k == i {
      AwaitsUnique(log, i, k, id);
    }
    assert forall k :: 0 <= k < |log| ==> (log + [last])[k] == log[k];
    EventReports(sessionId, Pending(log[i].order, log[i].tSend), last.response, last.tAck);
  }

  // ---- the bot ---------------------------------------------------------------------------

  class Bot {
    const sessionId: string
    var pending: map<string, Pending>
    var ordersSent: nat
    var trading: bool                // false once the loop has returned
    var emitted: seq<Event>          // what was handed to the telemetry producer
    ghost var log: seq<Act>

    ghost predicate Valid()
      reads this
    {
      && Tracks(pending, log)
      && emitted == EventsOf(log, sessionId)
      && ordersSent == Sendings(log)
    }

    constructor (sessionId: string)
      ensures Valid() && trading && log == [] && this.sessionId == sessionId
    {
      this.sessionId := sessionId;
      pending, ordersSent, trading, emitted, log := map[], 0, true, [], [];
    }

    /** The ticker fires: the order is written, and remembered only if the write succeeded. */
    method SendOrder(order: Order, tSend: int, written: bool)
      requires Valid() && trading
      modifies this
      ensures Valid() && trading == written
      ensures log == if written then old(log) + [Sent(order, tSend)] else old(log)
      ensures emitted == old(emitted)
      ensures pending == if written then old(pending)[order.orderId := Pending(order, tSend)] else old(pending)
      ensures ordersSent == old(ordersSent) + if written then 1 else 0
    {
      if !written {
        trading := false;
        return;
      }
      SendTracked(pending, log, order, tSend);
      SendEmitsNothing(log, order, tSend, sessionId);
      SendingsSnoc(log, Sent(order, tSend));
      pending := pending[order.orderId := Pending(order, tSend)];
      ordersSent := ordersSent + 1;
      log := log + [Sent(order, tSend)];
    }

    method TakeResponse(r: Response, tAck: int)
      requires Valid() && trading
      modifies this
      ensures Valid() && trading
      ensures log == old(log) + [Got(r, tAck)]
      ensures r.orderId !in old(pending) ==> emitted == old(emitted) && pending == old(pending)
      ensures r.orderId in old(pending) ==>
                && pending == old(pending) - {r.orderId} && |emitted| == |old(emitted)| + 1
                && emitted[..|old(emitted)|] == old(emitted)
      ensures r.orderId in old(pending) && old(pending)[r.orderId].order.sessionId == sessionId ==>
                Reports(emitted[|old(emitted)|], old(pending)[r.orderId].order, old(pending)[r.orderId].tSend, r, tAck)
    {
      ResponseEmits(pending, log, r, tAck, sessionId);
      ResponseTracked(pending, log, r, tAck);
      SendingsSnoc(log, Got(r, tAck));
      if r.orderId in pending {
        var p := pending[r.orderId];
        PendingUnderOwnId(pending, log, r.orderId);
        emitted := emitted + [EventFor(sessionId, p, r, tAck)];
        pending := pending - {r.orderId};
      } else {
        assert pending - {r.orderId} == pending;
      }
      log := log + [Got(r, tAck)];
    }

    /** The context is done: the loop returns, and what is pending stays without an event. */
    method Cancel()
      requires Valid() && trading
      modifies this`trading
      ensures Valid() && !trading
    {
      trading := false;
    }
  }

  // ---- accounting ------------------------------------------------------------------------

  function Sendings(log: seq<Act>): nat {
    if log == [] then 0 else Sendings(log[..|log| - 1]) + if log[|log| - 1].Sent? then 1 else 0
  }

  lemma SendingsSnoc(log: seq<Act>, a: Act)
    ensures Sendings(log + [a]) == Sendings(log) + if a.Sent? then 1 else 0
  {
    assert (log + [a])[..|log|] == log;
  }

  /** No order is sent under an identifier that still waits for its response. */
  ghost predicate NoResending(log: seq<Act>) {
    forall i :: 0 <= i < |log| && log[i].Sent? ==> !Waiting(log[..i], log[i].order.orderId)
  }

  lemma NoResendingSnoc(log: seq<Act>, a: Act)
    ensures NoResending(log + [a]) <==> NoResending(log) && (a.Sent? ==> !Waiting(log, a.order.orderId))
  {
    assert forall i :: 0 <= i <= |log| ==> (log + [a])[..i] == log[..i];
    assert log[..|log|] == log;
    if NoResending(log + [a]) {
      forall i | 0 <= i < |log| && log[i].Sent? ensures !Waiting(log[..i], log[i].order.orderId) {
        assert (log + [a])[i] == log[i];
      }
      assert (log + [a])[|log|] == a;
    }
  }

  /** Every sending is answered by one event or still waits, exactly when no identifier was sent again
      while it waited; otherwise some sending is lost. */
  lemma {:induction false} AccountedIff(log: seq<Act>, pending: map<string, Pending>, sessionId: string)
    requires Tracks(pending, log)
    ensures |EventsOf(log, sessionId)| + |pending| <= Sendings(log)
    ensures |EventsOf(log, sessionId)| + |pending| == Sendings(log) <==> NoResending(log)
  {
    if log == [] {
      assert forall id :: id !in pending;
    } else {
      var init, last := log[..|log| - 1], log[|log| - 1];
      var before := PendingAfter(init);
      AccountedIff(init, before, sessionId);
      NoResendingSnoc(init, last);
      assert log == init + [last];
      match last
      case Sent(order, tSend) =>
        SendTracked(before, init, order, tSend);
        SendEmitsNothing(init, order, tSend, sessionId);
        TracksUnique(pending, before[order.orderId := Pending(order, tSend)], log);
      case Got(r, tAck) =>
        ResponseTracked(before, init, r, tAck);
        ResponseEmits(before, init, r, tAck, sessionId);
        TracksUnique(pending, before - {r.orderId}, log);
        DropSize(before, r.orderId);
    }
  }

  lemma DropSize(m: map<string, Pending>, id: string)
    ensures |m - {id}| == if id in m then |m| - 1 else |m|
  {
    if id in m {
      assert (m - {id})[id := m[id]] == m;
    } else {
      assert m - {id} == m;
    }
  }

  lemma TracksUnique(a: map<string, Pending>, b: map<string, Pending>, log: seq<Act>)
    requires Tracks(a, log) && Tracks(b, log)
    ensures a == b
  {
    forall id | id in a ensures id in b && a[id] == b[id] {
      var i :| Awaits(log, i, id);
    }
    assert a.Keys == b.Keys;
  }

  lemma {:induction false} PendingAfter(log: seq<Act>) returns (pending: map<string, Pending>)
    ensures Tracks(pending, log)
  {
    if log == [] {
      pending := map[];
    } else {
      var init, last := log[..|log| - 1], log[|log| - 1];
      pending := PendingAfter(init);
      assert log == init + [last];
      match last
      case Sent(order, tSend) =>
        SendTracked(pending, init, order, tSend);
        pending := pending[order.orderId := Pending(order, tSend)];
      case Got(r, tAck) =>
        ResponseTracked(pending, init, r, tAck);
        pending := pending - {r.orderId};
    }
  }

  // ---- fresh identifiers -----------------------------------------------------------------

  ghost predicate FreshOrders(log: seq<Act>) {
    forall i, j :: 0 <= i < j < |log| && log[i].Sent? && log[j].Sent? ==> log[i].order.orderId != log[j].order.orderId
  }

  ghost predicate WasSent(log: seq<Act>, id: string) {
    exists i :: 0 <= i < |log| && log[i].Sent? && log[i].order.orderId == id
  }

  ghost predicate WasEmitted(events: seq<Event>, id: string) {
    exists i :: 0 <= i < |events| && events[i].orderId == id
  }

  ghost predicate DistinctOrders(events: seq<Event>) {
    forall i, j :: 0 <= i < j < |events| ==> events[i].orderId != events[j].orderId
  }

  /** With fresh identifiers the orders sent are, disjointly, those waiting and those with an event,
      and no order has two events. */
  lemma {:induction false} ExactlyOnce(log: seq<Act>, sessionId: string)
    requires FreshOrders(log)
    ensures DistinctOrders(EventsOf(log, sessionId))
    ensures forall id :: WasSent(log, id) <==> Waiting(log, id) || WasEmitted(EventsOf(log, sessionId), id)
    ensures forall id :: !(Waiting(log, id) && WasEmitted(EventsOf(log, sessionId), id))
  {
    if log != [] {
      var init, last := log[..|log| - 1], log[|log| - 1];
      assert log == init + [last];
      ExactlyOnce(init, sessionId);
      var pending := PendingAfter(init);
      forall id ensures WasSent(log, id) <==> WasSent(init, id) || (last.Sent? && last.order.orderId == id) {
        SentSnoc(init, last, id);
      }
      forall id ensures Waiting(log, id) <==> if Mentions(last, id) then last.Sent? else Waiting(init, id) {
        AwaitsAfter(init, last, id);
        if last.Sent? && Mentions(last, id) { assert Awaits(log, |init|, id); }
        if !Mentions(last, id) && Waiting(init, id) { var i :| Awaits(init, i, id); assert Awaits(log, i, id); }
      }
      match last
      case Sent(order, tSend) =>
        SendEmitsNothing(init, order, tSend, sessionId);
        NotSentBefore(init, last);
      case Got(r, tAck) =>
        ResponseEmits(pending, init, r, tAck, sessionId);
        if r.orderId in pending {
          EmittedSnoc(EventsOf(init, sessionId), EventFor(sessionId, pending[r.orderId], r, tAck));
        }
    }
  }

  lemma SentSnoc(log: seq<Act>, a: Act, id: string)
    ensures WasSent(log + [a], id) <==> WasSent(log, id) || (a.Sent? && a.order.orderId == id)
  {
    if WasSent(log, id) {
      var i :| 0 <= i < |log| && log[i].Sent? && log[i].order.orderId == id;
      assert (log + [a])[i] == log[i];
    }
    if a.Sent? && a.order.orderId == id { assert (log + [a])[|log|] == a; }
  }

  lemma NotSentBefore(log: seq<Act>, a: Act)
    requires FreshOrders(log + [a]) && a.Sent?
    ensures !WasSent(log, a.order.orderId) && FreshOrders(log)
  {
    assert (log + [a])[|log|] == a;
    forall i | 0 <= i < |log| && log[i].Sent? ensures (log + [a])[i] == log[i] && log[i].order.orderId != a.order.orderId {
    }
  }

  lemma EmittedSnoc(events: seq<Event>, e: Event)
    requires DistinctOrders(events) && !WasEmitted(events, e.orderId)
    ensures DistinctOrders(events + [e])
    ensures forall id :: WasEmitted(events + [e], id) <==> WasEmitted(events, id) || id == e.orderId
  {
    assert (events + [e])[|events|] == e;
    forall id | WasEmitted(events, id) ensures WasEmitted(events + [e], id) {
      var i :| 0 <= i < |events| && events[i].orderId == id;
      assert (events + [e])[i] == events[i];
    }
  }

  // ---- what the telemetry service then sees ----------------------------------------------

  function IdOf(op: OrderBooks.Op): string {
    if op.Add? then op.order.orderId else op.id
  }

  ghost predicate DistinctOps(ops: seq<OrderBooks.Op>) {
    forall i, j :: 0 <= i < j < |ops| ==> IdOf(ops[i]) != IdOf(ops[j])
  }

  lemma {:induction false} OpsOfDistinct(events: seq<Event>, session: string)
    requires DistinctOrders(events)
    ensures var ops := Validation.SessionOps(events, session);
            DistinctOps(ops) && forall k :: 0 <= k < |ops| ==> WasEmitted(events, IdOf(ops[k]))
  {
    if events != [] {
      var init, e := events[..|events| - 1], events[|events| - 1];
      var before := Validation.SessionOps(init, session);
      OpsOfDistinct(init, session);
      Validation.SessionOpsSnoc(init, e, session);
      assert events == init + [e];
      forall i | 0 <= i < |init| ensures init[i].orderId != e.orderId {
        assert events[i] == init[i];
      }
      EmittedSnoc(init, e);
      forall k | 0 <= k < |before| ensures IdOf(before[k]) != e.orderId && WasEmitted(events, IdOf(before[k])) {
        assert WasEmitted(init, IdOf(before[k]));
      }
    }
  }

  /** On a stream with one event per order, as bots with fresh identifiers produce, the validator's
      verdicts are the plain book's, and no acknowledged limit order ever leaves the book. */
  lemma OneEventPerOrder(events: seq<Event>, session: string, e: Event)
    requires DistinctOrders(events)
    ensures var ops := Validation.SessionOps(events, session);
            && (Validation.Flagged(ops, e) <==> Validation.FlaggedByPlainBook(ops, e))
            && forall k :: 0 <= k < |ops| && OrderBooks.Rests(ops[k]) ==>
                 && ops[k].order.orderId in OrderBooks.LiveOrders(ops)
                 && OrderBooks.LiveOrders(ops)[ops[k].order.orderId] == ops[k].order
  {
    var ops := Validation.SessionOps(events, session);
    OpsOfDistinct(events, session);
    assert OrderBooks.FreshIds(ops) by {
      forall i, j | 0 <= i < j < |ops| && OrderBooks.Rests(ops[i]) && OrderBooks.Rests(ops[j])
        ensures ops[i].order.orderId != ops[j].order.orderId
      {
        assert IdOf(ops[i]) != IdOf(ops[j]);
      }
    }
    Validation.FreshVerdictsExact(ops, e);
    forall k | 0 <= k < |ops| && OrderBooks.Rests(ops[k])
      ensures ops[k].order.orderId in OrderBooks.LiveOrders(ops)
      ensures OrderBooks.LiveOrders(ops)[ops[k].order.orderId] == ops[k].order
    {
      var id := ops[k].order.orderId;
      OrderBooks.LiveMeansStillRests(ops, id);
      forall j | k < j < |ops| ensures IdOf(ops[j]) != id {
        assert IdOf(ops[k]) != IdOf(ops[j]);
      }
      assert OrderBooks.StillRests(ops, k, id);
    }
  }
}
