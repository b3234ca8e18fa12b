/** The verdict on an event in terms of the events before it and nothing else. */
module EventVerdicts {
  import opened Events
  import opened OrderBooks
  import opened Validation

  /** The k-th event limit-acknowledged the identifier in the session, and no later fill or cancel of
      the session has removed it. */
  ghost predicate AckStands(h: seq<Event>, session: string, k: int, id: string) {
    && 0 <= k < |h| && h[k].sessionId == session && h[k].orderId == id
    && h[k].eventType == "ACK" && h[k].orderType == "L"
    && forall j :: k < j < |h| ==> !Removes(h[j], session, id)
  }

  predicate Removes(e: Event, session: string, id: string) {
    e.sessionId == session && e.orderId == id && (e.eventType == "FILL" || e.eventType == "CANCEL")
  }

  ghost predicate Stands(h: seq<Event>, session: string, id: string) {
    exists k :: AckStands(h, session, k, id)
  }

  /** The i-th event is a limit acknowledgement of the session whose identifier stands. */
  ghost predicate InSight(h: seq<Event>, session: string, i: int) {
    && 0 <= i < |h| && h[i].sessionId == session
    && h[i].eventType == "ACK" && h[i].orderType == "L"
    && Stands(h, session, h[i].orderId)
  }

  lemma StandsAfter(h: seq<Event>, e: Event, session: string, id: string)
    ensures Stands(h + [e], session, id) <==>
              || (e.sessionId == session && e.orderId == id && e.eventType == "ACK" && e.orderType == "L")
              || (Stands(h, session, id) && !Removes(e, session, id))
  {
    var h' := h + [e];
    assert h'[|h|] == e && forall i :: 0 <= i < |h| ==> h'[i] == h[i];
    if e.sessionId == session && e.orderId == id && e.eventType == "ACK" && e.orderType == "L" {
      assert AckStands(h', session, |h|, id);
    }
    if Stands(h, session, id) && !Removes(e, session, id) {
      var k :| AckStands(h, session, k, id);
      assert AckStands(h', session, k, id);
    }
    if k :| AckStands(h', session, k, id) && k < |h| {
      assert !Removes(h'[|h|], session, id) && AckStands(h, session, k, id);
    }
  }

  /** The plain book of a session holds exactly the identifiers that stand. */
  lemma {:induction false} LiveIffStands(h: seq<Event>, session: string, id: string)
    ensures id in LiveOrders(SessionOps(h, session)) <==> Stands(h, session, id)
  {
    if h == [] {
      assert SessionOps(h, session) == [];
    } else {
      var init, e := h[..|h| - 1], h[|h| - 1];
      LiveIffStands(init, session, id);
      StandsAfter(init, e, session, id);
      SessionOpsSnoc(init, e, session);
      assert h == init + [e];
      LiveAfter(SessionOps(init, session), e, id);
      assert SessionOps(init, session) + [] == SessionOps(init, session);
    }
  }

  lemma LiveAfter(ops: seq<Op>, e: Event, id: string)
    ensures id in LiveOrders(ops + OpsOf(e)) <==>
              || (e.orderId == id && e.eventType == "ACK" && e.orderType == "L")
              || (id in LiveOrders(ops) && !(e.orderId == id && (e.eventType == "FILL" || e.eventType == "CANCEL")))
  {
    AfterAdd(ops, e);
    AfterRemove(ops, e.orderId);
    assert ops + [] == ops;
  }

  /** Orders are added by the session's acknowledgements and by nothing else. */
  lemma {:induction false} AddedIff(h: seq<Event>, session: string, e: Event)
    ensures Add(e) in SessionOps(h, session) <==> e in h && e.sessionId == session && e.eventType == "ACK"
  {
    if h != [] {
      var init, last := h[..|h| - 1], h[|h| - 1];
      AddedIff(init, session, e);
      SessionOpsSnoc(init, last, session);
      assert h == init + [last];
    }
  }

  /** A price is in sight exactly when some limit acknowledgement of the side carried it and its
      identifier stands. */
  lemma VisibleIffInSight(h: seq<Event>, session: string, side: Side, p: real)
    ensures p in VisiblePrices(SessionOps(h, session), side)
            <==> exists i :: InSight(h, session, i) && h[i].price == p && (h[i].side == "B" <==> side == Bid)
  {
    var ops := SessionOps(h, session);
    if p in VisiblePrices(ops, side) {
      var op :| op in ops && Rests(op) && SideOf(op.order) == side && op.order.orderId in LiveOrders(ops) && op.order.price == p;
      AddedIff(h, session, op.order);
      LiveIffStands(h, session, op.order.orderId);
      var i :| 0 <= i < |h| && h[i] == op.order;
      assert InSight(h, session, i);
    }
    if i :| InSight(h, session, i) && h[i].price == p && (h[i].side == "B" <==> side == Bid) {
      AddedIff(h, session, h[i]);
      LiveIffStands(h, session, h[i].orderId);
      assert Add(h[i]) in ops;
    }
  }

  /** What the validator marks: the events marked on arrival; fills that sell below a positive bid in
      sight or buy above an ask in sight, by more than 0.001; and fills over the order's quantity by more
      than 0.0001. */
  lemma VerdictOnEvents(h: seq<Event>, e: Event)
    ensures Verdict(h, e) <==>
              || e.violation
              || (e.eventType == "FILL" && e.side == "S" &&
                  exists i :: && InSight(h, e.sessionId, i) && h[i].side == "B" && h[i].price > 0.0
                              && e.fillPrice < h[i].price - 0.001)
              || (e.eventType == "FILL" && e.side == "B" &&
                  exists i :: InSight(h, e.sessionId, i) && h[i].side != "B" && e.fillPrice > h[i].price + 0.001)
              || (e.eventType == "FILL" && e.fillQty > e.qty + 0.0001)
  {
    var ops, s := SessionOps(h, e.sessionId), e.sessionId;
    forall p ensures p in VisiblePrices(ops, Bid) <==> exists i :: InSight(h, s, i) && h[i].price == p && h[i].side == "B" {
      VisibleIffInSight(h, s, Bid, p);
    }
    forall p ensures p in VisiblePrices(ops, Ask) <==> exists i :: InSight(h, s, i) && h[i].price == p && h[i].side != "B" {
      VisibleIffInSight(h, s, Ask, p);
    }
    if i :| InSight(h, s, i) && h[i].side == "B" && h[i].price > 0.0 && e.fillPrice < h[i].price - 0.001 {
      assert h[i].price in VisiblePrices(ops, Bid);
    }
    if i :| InSight(h, s, i) && h[i].side != "B" && e.fillPrice > h[i].price + 0.001 {
      assert h[i].price in VisiblePrices(ops, Ask);
    }
  }
}
