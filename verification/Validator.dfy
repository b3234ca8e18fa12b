/** The correctness validator: one book per session and verdicts on fills, which are compared with a
    definition over the whole event history. */
module Validation {
  import opened Events
  import opened OrderBooks
  import Sets

  // ---- the reference definition ----------------------------------------------------------

  /** What an event does to the book of its session. */
  function OpsOf(e: Event): seq<Op> {
    if e.eventType == "ACK" then [Add(e)]
    else if e.eventType == "FILL" || e.eventType == "CANCEL" then [Remove(e.orderId)]
    else []
  }

  ghost function SessionOps(h: seq<Event>, session: string): seq<Op> {
    if h == [] then []
    else
      var e := h[|h| - 1];
      SessionOps(h[..|h| - 1], session) + if e.sessionId == session then OpsOf(e) else []
  }

  function Sessions(h: seq<Event>): set<string> {
    if h == [] then {} else Sessions(h[..|h| - 1]) + {h[|h| - 1].sessionId}
  }

  /** A fill breaks price priority against the prices in sight on the opposite side, or overfills. */
  ghost predicate FlaggedAgainst(bids: set<real>, asks: set<real>, e: Event) {
    e.eventType == "FILL" && (
      || (e.side == "S" && exists p :: p in bids && p > 0.0 && e.fillPrice < p - 0.001)
      || (e.side == "B" && exists p :: p in asks && e.fillPrice > p + 0.001)
      || e.fillQty > e.qty + 0.0001)
  }

  /** The verdict on an event after a history of its session's operations, as the mirror gives it. */
  ghost predicate Flagged(ops: seq<Op>, e: Event) {
    FlaggedAgainst(VisiblePrices(ops, Bid), VisiblePrices(ops, Ask), e)
  }

  /** The verdict the plain book of live orders would give. */
  ghost predicate FlaggedByPlainBook(ops: seq<Op>, e: Event) {
    FlaggedAgainst(LivePrices(ops, Bid), LivePrices(ops, Ask), e)
  }

  /** The violation mark that event e leaves the validator with, after the events h. */
  ghost predicate Verdict(h: seq<Event>, e: Event) {
    e.violation || Flagged(SessionOps(h, e.sessionId), e)
  }

  ghost function Verdicts(h: seq<Event>): seq<bool> {
    if h == [] then []
    else Verdicts(h[..|h| - 1]) + [Verdict(h[..|h| - 1], h[|h| - 1])]
  }

  lemma VerdictsSnoc(h: seq<Event>, e: Event)
    ensures Verdicts(h + [e]) == Verdicts(h) + [Verdict(h, e)]
  {
    assert (h + [e])[..|h|] == h;
  }

  // ---- the comparisons of the code -------------------------------------------------------

  lemma SellRule(prices: set<real>, best: real, fill: real)
    requires IsTop(Bid, prices, best)
    ensures best > 0.0 && fill < best - 0.001 <==> exists p :: p in prices && p > 0.0 && fill < p - 0.001
  {
    if p :| p in prices && p > 0.0 && fill < p - 0.001 {
      assert p <= best;
    }
  }

  lemma BuyRule(prices: set<real>, best: Float, fill: Float)
    requires IsTop(Ask, prices, best)
    ensures best < MAX_FLOAT64 && fill > best + 0.001 <==> exists p :: p in prices && fill > p + 0.001
  {
    if p :| p in prices && fill > p + 0.001 {
      assert best <= p;
    }
  }

  // ---- the mirror's verdicts against the plain book's ------------------------------------

  /** For every history, re-used identifiers included, no violation of the plain book is missed. */
  lemma NothingMissed(ops: seq<Op>, e: Event)
    ensures FlaggedByPlainBook(ops, e) ==> Flagged(ops, e)
  {
    LiveIsVisible(ops, Bid);
    LiveIsVisible(ops, Ask);
  }

  /** If re-used identifiers are harmless, the verdict is the plain book's, before and after any
      further removals. */
  lemma HarmlessVerdictsExact(ops: seq<Op>, ids: seq<string>, e: Event)
    requires ReusesHarmless(ops)
    ensures Flagged(ops + Removals(ids), e) <==> FlaggedByPlainBook(ops + Removals(ids), e)
  {
    var after := ops + Removals(ids);
    HarmlessAfterRemovals(ops, ids);
    NothingMissed(after, e);
    forall p | p in VisiblePrices(after, Bid) ensures Covered(Bid, p, LivePrices(after, Bid)) {
      HarmlessCover(after, Bid, p);
    }
    forall p | p in VisiblePrices(after, Ask) ensures Covered(Ask, p, LivePrices(after, Ask)) {
      HarmlessCover(after, Ask, p);
    }
  }

  /** No fill can break priority against this price: the code compares only with positive bids, and no
      finite fill price is beyond an ask this high. */
  predicate NeverBroken(side: Side, price: real) {
    if side == Bid then price <= 0.0 else price + 0.001 >= MAX_FLOAT64
  }

  ghost predicate HarmlessForVerdicts(ops: seq<Op>, op: Op)
    requires Rests(op) && op.order.orderId in LiveOrders(ops)
  {
    var now := LiveOrders(ops)[op.order.orderId];
    || NeverBroken(SideOf(op.order), op.order.price)
    || (SideOf(op.order) == SideOf(now) && !Better(SideOf(now), op.order.price, now.price))
  }

  /** Every earlier limit order of a live identifier was on the same side at no better a price, or at a
      price that no fill can break. */
  ghost predicate VerdictsHarmless(ops: seq<Op>) {
    forall op :: op in ops && Rests(op) && op.order.orderId in LiveOrders(ops) ==> HarmlessForVerdicts(ops, op)
  }

  lemma VerdictsHarmlessAfterRemovals(ops: seq<Op>, ids: seq<string>)
    requires VerdictsHarmless(ops)
    ensures VerdictsHarmless(ops + Removals(ids))
  {
    RemovalsOnlyRemove(ops, ids);
    var after := ops + Removals(ids);
    forall op | op in after && Rests(op) && op.order.orderId in LiveOrders(after) ensures HarmlessForVerdicts(after, op) {
      assert HarmlessForVerdicts(ops, op);
    }
  }

  lemma HarmlessGivesSameVerdict(ops: seq<Op>, e: Event)
    requires VerdictsHarmless(ops)
    ensures Flagged(ops, e) <==> FlaggedByPlainBook(ops, e)
  {
    NothingMissed(ops, e);
    if e.eventType == "FILL" {
      if e.side == "S" {
        forall p | p in VisiblePrices(ops, Bid) && p > 0.0 && e.fillPrice < p - 0.001
          ensures exists q :: q in LivePrices(ops, Bid) && q > 0.0 && e.fillPrice < q - 0.001
        {
          VisibleIsLiveOrNeverBroken(ops, Bid, p);
        }
      }
      if e.side == "B" {
        forall p | p in VisiblePrices(ops, Ask) && e.fillPrice > p + 0.001
          ensures exists q :: q in LivePrices(ops, Ask) && e.fillPrice > q + 0.001
        {
          VisibleIsLiveOrNeverBroken(ops, Ask, p);
        }
      }
    }
  }

  lemma VisibleIsLiveOrNeverBroken(ops: seq<Op>, side: Side, p: real)
    requires VerdictsHarmless(ops) && p in VisiblePrices(ops, side)
    ensures NeverBroken(side, p) || exists q :: q in LivePrices(ops, side) && !Better(side, p, q)
  {
    var op :| op in ops && Rests(op) && SideOf(op.order) == side && op.order.orderId in LiveOrders(ops) && op.order.price == p;
    assert HarmlessForVerdicts(ops, op);
    if !NeverBroken(side, p) {
      assert LiveOrders(ops)[op.order.orderId].price in LivePrices(ops, side);
    }
  }

  /** The exact condition for verdicts: they are the plain book's on every fill, whatever is filled or
      cancelled next, if and only if re-used identifiers are harmless in this sense. */
  lemma VerdictsExactIff(ops: seq<Op>)
    ensures (forall ids, e :: Flagged(ops + Removals(ids), e) <==> FlaggedByPlainBook(ops + Removals(ids), e))
            <==> VerdictsHarmless(ops)
  {
    if VerdictsHarmless(ops) {
      forall ids, e ensures Flagged(ops + Removals(ids), e) <==> FlaggedByPlainBook(ops + Removals(ids), e) {
        VerdictsHarmlessAfterRemovals(ops, ids);
        HarmlessGivesSameVerdict(ops + Removals(ids), e);
      }
    } else {
      var op :| op in ops && Rests(op) && op.order.orderId in LiveOrders(ops) && !HarmlessForVerdicts(ops, op);
      var others := Sets.Enumerate(LiveOrders(ops).Keys - {op.order.orderId});
      RemovalsOnlyRemove(ops, others);
      var e := FalseAlarm(ops + Removals(others), op);
      assert !(Flagged(ops + Removals(others), e) <==> FlaggedByPlainBook(ops + Removals(others), e));
    }
  }

  function Fill(side: string, price: Float): Event {
    Event("", "", "FILL", 0, 0, 0, side, "L", 0.0, 0.0, price, 0.0, 0, false)
  }

  /** When the harmful identifier is the only live one, some correct fill is flagged. */
  lemma FalseAlarm(ops: seq<Op>, op: Op) returns (e: Event)
    requires op in ops && Rests(op) && LiveOrders(ops).Keys == {op.order.orderId}
    requires !HarmlessForVerdicts(ops, op)
    ensures Flagged(ops, e) && !FlaggedByPlainBook(ops, e)
  {
    var side, now := SideOf(op.order), LiveOrders(ops)[op.order.orderId];
    assert op.order.price in VisiblePrices(ops, side);
    var plain := LivePrices(ops, side);
    assert plain == if SideOf(now) == side then {now.price} else {};
    if side == Bid {
      var usable := SideOf(now) == Bid && now.price > 0.0;
      e := Fill("S", if usable then now.price - 0.001 else op.order.price - 0.002);
    } else {
      var usable := SideOf(now) == Ask && now.price + 0.001 <= MAX_FLOAT64;
      e := Fill("B", if usable then now.price + 0.001 else MAX_FLOAT64);
    }
  }

  /** With every identifier limit-acknowledged at most once, verdicts are exactly the plain book's. */
  lemma FreshVerdictsExact(ops: seq<Op>, e: Event)
    requires FreshIds(ops)
    ensures Flagged(ops, e) <==> FlaggedByPlainBook(ops, e)
  {
    FreshIdsAgree(ops, Bid);
    FreshIdsAgree(ops, Ask);
  }

  /** A false alarm that re-use can cause: after a buy at 101 is cancelled and its identifier comes
      back at 99, a sell filled at 100 is flagged although the best live bid is 99. */
  lemma ReuseFalseAlarm(first: Event, again: Event, e: Event)
    requires first.orderType == again.orderType == "L" && first.side == again.side == "B"
    requires first.orderId == again.orderId && first.price == 101.0 && again.price == 99.0
    requires e.eventType == "FILL" && e.side == "S" && e.fillPrice == 100.0 && e.fillQty <= e.qty
    ensures var ops := [Add(first), Remove(first.orderId), Add(again)];
            Flagged(ops, e) && !FlaggedByPlainBook(ops, e)
  {
    var ops := [Add(first), Remove(first.orderId), Add(again)];
    RevivedOrderMisleads(first, again);
    SellRule(VisiblePrices(ops, Bid), 101.0, 100.0);
    SellRule(LivePrices(ops, Bid), 99.0, 100.0);
  }

  // ---- sessions do not interfere ---------------------------------------------------------

  function OnlySession(h: seq<Event>, session: string): seq<Event> {
    if h == [] then []
    else OnlySession(h[..|h| - 1], session) + if h[|h| - 1].sessionId == session then [h[|h| - 1]] else []
  }

  /** The verdicts that an interleaved stream gives to the events of one session. */
  ghost function VerdictsOn(h: seq<Event>, session: string): seq<bool> {
    if h == [] then []
    else
      VerdictsOn(h[..|h| - 1], session)
      + if h[|h| - 1].sessionId == session then [Verdict(h[..|h| - 1], h[|h| - 1])] else []
  }

  lemma SessionOpsSnoc(h: seq<Event>, e: Event, session: string)
    ensures SessionOps(h + [e], session) == SessionOps(h, session) + if e.sessionId == session then OpsOf(e) else []
    ensures Sessions(h + [e]) == Sessions(h) + {e.sessionId}
  {
    assert (h + [e])[..|h|] == h;
  }

  lemma AfterEvent(h: seq<Event>, e: Event)
    ensures Sessions(h + [e]) == Sessions(h) + {e.sessionId}
    ensures SessionOps(h + [e], e.sessionId) == SessionOps(h, e.sessionId) + OpsOf(e)
    ensures forall s :: s != e.sessionId ==> SessionOps(h + [e], s) == SessionOps(h, s)
  {
    SessionOpsSnoc(h, e, e.sessionId);
    forall s | s != e.sessionId ensures SessionOps(h + [e], s) == SessionOps(h, s) {
      SessionOpsSnoc(h, e, s);
    }
  }

  lemma {:induction false} OpsOfOneSession(h: seq<Event>, session: string)
    ensures SessionOps(OnlySession(h, session), session) == SessionOps(h, session)
    ensures session in Sessions(OnlySession(h, session)) <==> session in Sessions(h)
  {
    if h != [] {
      var init, e := h[..|h| - 1], h[|h| - 1];
      var only := OnlySession(init, session);
      OpsOfOneSession(init, session);
      assert h == init + [e] && only + [] == only;
      SessionOpsSnoc(init, e, session);
      SessionOpsSnoc(only, e, session);
    }
  }

  /** The verdicts on a session in any interleaving are those of the session run alone. */
  lemma {:induction false} SessionsDoNotInterfere(h: seq<Event>, session: string)
    ensures VerdictsOn(h, session) == Verdicts(OnlySession(h, session))
  {
    if h != [] {
      var init, e := h[..|h| - 1], h[|h| - 1];
      var only := OnlySession(init, session);
      SessionsDoNotInterfere(init, session);
      OpsOfOneSession(init, session);
      assert (only + [e])[..|only|] == only && only + [] == only;
    }
  }

  /** Two valid books with one history are equal field by field. */
  lemma SameHistorySameBook(a: OrderBook, b: OrderBook)
    requires a.Valid() && b.Valid() && a.history == b.history
    ensures a.bids == b.bids && a.asks == b.asks && a.orderIndex == b.orderIndex
  {
    ShapeIsUnique(a.bids, b.bids, Bid);
    ShapeIsUnique(a.asks, b.asks, Ask);
  }

  /** The book of a session after an interleaved stream is the book of the session run alone. */
  lemma FinalBookOfSession(v: Validator, alone: Validator, session: string)
    requires v.Valid() && alone.Valid() && alone.history == OnlySession(v.history, session)
    requires session in Sessions(v.history)
    ensures session in v.books && session in alone.books
    ensures v.books[session].bids == alone.books[session].bids
    ensures v.books[session].asks == alone.books[session].asks
    ensures v.books[session].orderIndex == alone.books[session].orderIndex
  {
    OpsOfOneSession(v.history, session);
    SameHistorySameBook(v.books[session], alone.books[session]);
  }

  // ---- the validator ---------------------------------------------------------------------

  class Validator {
    var books: map<string, OrderBook>
    ghost var history: seq<Event>
    ghost var given: seq<bool>  // the verdicts given so far
    ghost var owned: set<OrderBook>

    /** Each session has its own valid book, whose history is that of the session's events. */
    ghost predicate Consistent()
      reads this, owned
    {
      && (forall s :: s in books ==> books[s] in owned && books[s].Valid() && books[s].history == SessionOps(history, s))
      && (forall s, t :: s in books && t in books && s != t ==> books[s] != books[t])
    }

    ghost predicate Valid()
      reads this, owned
    {
      Consistent() && books.Keys == Sessions(history) && given == Verdicts(history)
    }

    constructor ()
      ensures Valid() && history == [] && given == [] && owned == {}
    {
      books, history, given, owned := map[], [], [], {};
    }

    method GetBook(sessionId: string) returns (b: OrderBook)
      requires Valid()
      modifies this`books, this`owned
      ensures Consistent() && books.Keys == Sessions(history) + {sessionId} && books[sessionId] == b
      ensures fresh(owned - old(owned)) && (b in old(owned) || fresh(b))
    {
      hide OrderBook.Valid, Verdicts, Sessions;
      if sessionId in books {
        b := books[sessionId];
        return;
      }
      b := new OrderBook();
      books := books[sessionId := b];
      owned := owned + {b};
      NoOpsWithoutEvents(history, sessionId);
    }

    /** The checks on a fill; the result is the violation mark. */
    static method Judge(book: OrderBook, e: Event) returns (violation: bool)
      requires book.Valid() && e.eventType == "FILL"
      ensures violation == (e.violation || Flagged(book.history, e))
    {
      violation := e.violation;
      var bestBid := book.BestBid();
      var bestAsk := book.BestAsk();
      SellRule(VisiblePrices(book.history, Bid), bestBid, e.fillPrice);
      BuyRule(VisiblePrices(book.history, Ask), bestAsk, e.fillPrice);
      if e.side == "S" && bestBid > 0.0 && e.fillPrice < bestBid - 0.001 {
        violation := true;
      }
      if e.side == "B" && bestAsk < MAX_FLOAT64 && e.fillPrice > bestAsk + 0.001 {
        violation := true;
      }
      if e.fillQty > e.qty + 0.0001 {
        violation := true;
      }
    }

    /** The switch over event types, on the book of the event's session. */
    static method Apply(book: OrderBook, e: Event) returns (judged: Event)
      requires book.Valid()
      modifies book
      ensures book.Valid() && book.history == old(book.history) + OpsOf(e)
      ensures judged == e.(violation := e.violation || Flagged(old(book.history), e))
      ensures e.eventType !in {"ACK", "FILL", "CANCEL"} ==>
                book.bids == old(book.bids) && book.asks == old(book.asks) && book.orderIndex == old(book.orderIndex)
      ensures e.eventType in {"FILL", "CANCEL"} ==>
                book.bids == old(book.bids) && book.asks == old(book.asks) && book.orderIndex == old(book.orderIndex) - {e.orderId}
    {
      judged := e;
      if e.eventType == "ACK" {
        book.AddOrder(e);
      } else if e.eventType == "FILL" {
        var violation := Judge(book, e);
        judged := judged.(violation := violation);
        book.RemoveOrder(e.orderId);
      } else if e.eventType == "CANCEL" {
        book.RemoveOrder(e.orderId);
      }
    }

    /** Judges one event; `judged` is the event with its violation mark as the code leaves it. */
    method Validate(e: Event) returns (judged: Event)
      requires Valid()
      modifies this, owned
      ensures Valid() && history == old(history) + [e] && given == old(given) + [judged.violation]
      ensures fresh(owned - old(owned))
      ensures judged == e.(violation := Verdict(old(history), e))
    {
      var book := GetBook(e.sessionId);
      judged := ApplyTo(book, e);
    }

    method ApplyTo(book: OrderBook, e: Event) returns (judged: Event)
      requires Consistent() && e.sessionId in books && book == books[e.sessionId]
      requires books.Keys == Sessions(history) + {e.sessionId} && given == Verdicts(history)
      modifies this`history, this`given, book
      ensures Valid() && history == old(history) + [e] && given == old(given) + [judged.violation]
      ensures judged == e.(violation := Verdict(old(history), e))
    {
      AfterEvent(history, e);
      VerdictsSnoc(history, e);
      judged := Apply(book, e);
      history, given := history + [e], given + [judged.violation];
    }
  }

  lemma {:induction false} NoOpsWithoutEvents(h: seq<Event>, session: string)
    requires session !in Sessions(h)
    ensures SessionOps(h, session) == []
  {
    if h != [] {
      assert h == h[..|h| - 1] + [h[|h| - 1]];
      NoOpsWithoutEvents(h[..|h| - 1], session);
    }
  }
}
