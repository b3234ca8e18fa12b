/** The order-book mirror of one session: sorted price levels with lazy deletion through an index,
    compared with a plain set of live orders. */
module OrderBooks {
  import opened Events
  import Sets

  datatype Side = Bid | Ask

  datatype LiveOrder = LiveOrder(orderId: string, seqNo: int, qty: Float, timestamp: int)

  datatype PriceLevel = PriceLevel(price: Float, orders: seq<LiveOrder>)

  /** The two calls that change a book. */
  datatype Op = Add(order: Event) | Remove(id: string)

  /** Only limit orders enter the book. */
  predicate Rests(op: Op) {
    op.Add? && op.order.orderType == "L"
  }

  function SideOf(e: Event): Side {
    if e.side == "B" then Bid else Ask
  }

  predicate Better(side: Side, p: real, q: real) {
    if side == Bid then p > q else p < q
  }

  function Sentinel(side: Side): Float {
    if side == Bid then 0.0 else MAX_FLOAT64
  }

  function Record(e: Event): LiveOrder {
    LiveOrder(e.orderId, e.seqNo, e.qty, e.tSendNs)
  }

  // ---- the plain book: what the mirror is meant to show ----------------------------------

  /** The live orders after a history: each identifier with its latest limit order, if not removed since. */
  ghost function LiveOrders(h: seq<Op>): map<string, Event> {
    if h == [] then map[]
    else
      var before, op := LiveOrders(h[..|h| - 1]), h[|h| - 1];
      if op.Remove? then before - {op.id}
      else if Rests(op) then before[op.order.orderId := op.order]
      else before
  }

  ghost function LivePrices(h: seq<Op>, side: Side): set<real> {
    set id | id in LiveOrders(h) && SideOf(LiveOrders(h)[id]) == side :: LiveOrders(h)[id].price
  }

  /** What lazy deletion leaves in sight: every limit order ever added whose identifier is live now. */
  ghost function VisiblePrices(h: seq<Op>, side: Side): set<real> {
    set op | op in h && Rests(op) && SideOf(op.order) == side && op.order.orderId in LiveOrders(h) :: op.order.price
  }

  /** The orders ever added at one price, in arrival order. */
  ghost function Arrivals(h: seq<Op>, side: Side, price: real): seq<LiveOrder> {
    if h == [] then []
    else
      var op := h[|h| - 1];
      Arrivals(h[..|h| - 1], side, price)
      + if Rests(op) && SideOf(op.order) == side && op.order.price == price then [Record(op.order)] else []
  }

  ghost predicate IsBest(side: Side, prices: set<real>, p: real) {
    p in prices && forall q :: q in prices ==> !Better(side, q, p)
  }

  /** r is the best of the prices, or the sentinel if there are none. */
  ghost predicate IsTop(side: Side, prices: set<real>, r: real) {
    if prices == {} then r == Sentinel(side) else IsBest(side, prices, r)
  }

  // ---- price levels ----------------------------------------------------------------------

  ghost predicate StrictlySorted(levels: seq<PriceLevel>, side: Side) {
    forall i, j :: 0 <= i < j < |levels| ==> Better(side, levels[i].price, levels[j].price)
  }

  ghost predicate Distinct(levels: seq<PriceLevel>) {
    forall i, j :: 0 <= i < j < |levels| ==> levels[i].price != levels[j].price
  }

  ghost predicate NoEmptyLevel(levels: seq<PriceLevel>) {
    forall i :: 0 <= i < |levels| ==> levels[i].orders != []
  }

  ghost function OrdersAt(levels: seq<PriceLevel>, price: real): seq<LiveOrder> {
    if levels == [] then []
    else if levels[0].price == price then levels[0].orders
    else OrdersAt(levels[1..], price)
  }

  /** One side of the book agrees with the history: strictly sorted levels without empty ones, and
      at each price exactly the orders that arrived there, in arrival order. */
  ghost predicate Mirrors(levels: seq<PriceLevel>, side: Side, h: seq<Op>) {
    && StrictlySorted(levels, side)
    && NoEmptyLevel(levels)
    && forall p :: OrdersAt(levels, p) == Arrivals(h, side, p)
  }

  lemma {:induction false} OrdersAtIndex(levels: seq<PriceLevel>, k: nat)
    requires Distinct(levels) && k < |levels|
    ensures OrdersAt(levels, levels[k].price) == levels[k].orders
  {
    if k > 0 { OrdersAtIndex(levels[1..], k - 1); }
  }

  lemma {:induction false} OrdersAtNone(levels: seq<PriceLevel>, p: real)
    requires forall i :: 0 <= i < |levels| ==> levels[i].price != p
    ensures OrdersAt(levels, p) == []
  {
    if levels != [] { OrdersAtNone(levels[1..], p); }
  }

  lemma {:induction false} OrdersAtFind(levels: seq<PriceLevel>, p: real) returns (k: nat)
    requires OrdersAt(levels, p) != []
    ensures k < |levels| && levels[k].price == p && levels[k].orders == OrdersAt(levels, p)
  {
    if levels[0].price == p { k := 0; } else {
      k := OrdersAtFind(levels[1..], p);
      k := k + 1;
    }
  }

  lemma {:induction false} OrdersAtUpdate(levels: seq<PriceLevel>, k: nat, orders: seq<LiveOrder>, p: real)
    requires Distinct(levels) && k < |levels|
    ensures OrdersAt(levels[k := PriceLevel(levels[k].price, orders)], p)
            == if p == levels[k].price then orders else OrdersAt(levels, p)
  {
    var updated := levels[k := PriceLevel(levels[k].price, orders)];
    if k > 0 {
      OrdersAtUpdate(levels[1..], k - 1, orders, p);
      assert updated[1..] == levels[1..][k - 1 := PriceLevel(levels[k].price, orders)];
    } else {
      assert updated[1..] == levels[1..];
      if p == levels[0].price { } else { }
    }
  }

  /** The levels of a side are a function of its history: a book has only one shape. */
  lemma {:induction false} ShapeIsUnique(a: seq<PriceLevel>, b: seq<PriceLevel>, side: Side)
    requires StrictlySorted(a, side) && NoEmptyLevel(a) && StrictlySorted(b, side) && NoEmptyLevel(b)
    requires forall p :: OrdersAt(a, p) == OrdersAt(b, p)
    ensures a == b
  {
    if a != [] { var _ := HeadIsShared(a, b); }
    if b != [] { var _ := HeadIsShared(b, a); }
    if a != [] {
      var i := HeadIsShared(a, b);
      var j := HeadIsShared(b, a);
      assert a[0].price == b[0].price;
      forall p ensures OrdersAt(a[1..], p) == OrdersAt(b[1..], p) {
        assert OrdersAt(a, p) == OrdersAt(b, p);
        if p == a[0].price {
          OrdersAtNone(a[1..], p);
          OrdersAtNone(b[1..], p);
        }
      }
      ShapeIsUnique(a[1..], b[1..], side);
      assert a == [a[0]] + a[1..] && b == [b[0]] + b[1..];
    }
  }

  lemma HeadIsShared(a: seq<PriceLevel>, b: seq<PriceLevel>) returns (k: nat)
    requires a != [] && NoEmptyLevel(a) && forall p :: OrdersAt(a, p) == OrdersAt(b, p)
    ensures k < |b| && b[k].price == a[0].price && b[k].orders == a[0].orders
  {
    assert OrdersAt(b, a[0].price) == a[0].orders;
    k := OrdersAtFind(b, a[0].price);
  }

  // ---- sorting, as the library call leaves the levels ------------------------------------

  function Place(levels: seq<PriceLevel>, level: PriceLevel, side: Side): seq<PriceLevel> {
    if levels == [] || Better(side, level.price, levels[0].price) then [level] + levels
    else [levels[0]] + Place(levels[1..], level, side)
  }

  function SortLevels(levels: seq<PriceLevel>, side: Side): seq<PriceLevel> {
    if levels == [] then [] else Place(SortLevels(levels[1..], side), levels[0], side)
  }

  lemma {:induction false} PlaceKeeps(levels: seq<PriceLevel>, level: PriceLevel, side: Side)
    requires StrictlySorted(levels, side) && NoEmptyLevel(levels) && level.orders != []
    requires forall i :: 0 <= i < |levels| ==> levels[i].price != level.price
    ensures StrictlySorted(Place(levels, level, side), side) && NoEmptyLevel(Place(levels, level, side))
    ensures forall p :: OrdersAt(Place(levels, level, side), p) == if p == level.price then level.orders else OrdersAt(levels, p)
    ensures forall l :: l in Place(levels, level, side) <==> l == level || l in levels
  {
    var placed := Place(levels, level, side);
    if levels == [] || Better(side, level.price, levels[0].price) {
      assert placed[1..] == levels;
    } else {
      var rest := Place(levels[1..], level, side);
      PlaceKeeps(levels[1..], level, side);
      assert placed[1..] == rest;
      forall j | 0 <= j < |rest| ensures Better(side, levels[0].price, rest[j].price) {
        assert rest[j] in rest;
      }
    }
  }

  lemma {:induction false} SortKeeps(levels: seq<PriceLevel>, side: Side)
    requires Distinct(levels) && NoEmptyLevel(levels)
    ensures StrictlySorted(SortLevels(levels, side), side) && NoEmptyLevel(SortLevels(levels, side))
    ensures forall p :: OrdersAt(SortLevels(levels, side), p) == OrdersAt(levels, p)
    ensures forall l :: l in SortLevels(levels, side) <==> l in levels
  {
    if levels != [] {
      SortKeeps(levels[1..], side);
      var sorted := SortLevels(levels[1..], side);
      forall i | 0 <= i < |sorted| ensures sorted[i].price != levels[0].price {
        assert sorted[i] in levels[1..];
      }
      PlaceKeeps(sorted, levels[0], side);
    }
  }

  // ---- facts about histories -------------------------------------------------------------

  lemma {:induction false} ArrivalsMember(h: seq<Op>, side: Side, p: real, lo: LiveOrder)
    ensures lo in Arrivals(h, side, p) <==>
              exists op :: op in h && Rests(op) && SideOf(op.order) == side && op.order.price == p && Record(op.order) == lo
  {
    if h != [] {
      ArrivalsMember(h[..|h| - 1], side, p, lo);
      assert h == h[..|h| - 1] + [h[|h| - 1]];
    }
  }

  ghost function IndexOf(live: map<string, Event>): map<string, LiveOrder> {
    map id | id in live :: Record(live[id])
  }

  lemma IndexAfter(live: map<string, Event>, id: string, e: Event)
    ensures IndexOf(live[id := e]) == IndexOf(live)[id := Record(e)]
    ensures IndexOf(live - {id}) == IndexOf(live) - {id}
  {
  }

  lemma AfterAdd(h: seq<Op>, e: Event)
    ensures LiveOrders(h + [Add(e)]) == if Rests(Add(e)) then LiveOrders(h)[e.orderId := e] else LiveOrders(h)
    ensures forall side, p :: Arrivals(h + [Add(e)], side, p)
              == Arrivals(h, side, p) + if Rests(Add(e)) && SideOf(e) == side && e.price == p then [Record(e)] else []
  {
    assert (h + [Add(e)])[..|h|] == h;
  }

  lemma AfterRemove(h: seq<Op>, id: string)
    ensures LiveOrders(h + [Remove(id)]) == LiveOrders(h) - {id}
    ensures forall side, p :: Arrivals(h + [Remove(id)], side, p) == Arrivals(h, side, p)
  {
    assert (h + [Remove(id)])[..|h|] == h;
  }

  /** A price is in sight exactly when its level holds an order whose identifier is live. */
  lemma VisibleIff(h: seq<Op>, side: Side, p: real)
    ensures p in VisiblePrices(h, side) <==> exists lo :: lo in Arrivals(h, side, p) && lo.orderId in LiveOrders(h)
  {
    if p in VisiblePrices(h, side) {
      var op :| op in h && Rests(op) && SideOf(op.order) == side && op.order.orderId in LiveOrders(h) && op.order.price == p;
      ArrivalsMember(h, side, p, Record(op.order));
    }
    if lo :| lo in Arrivals(h, side, p) && lo.orderId in LiveOrders(h) {
      ArrivalsMember(h, side, p, lo);
    }
  }

  /** Only prices of limit orders of the side are ever in sight: other orders never enter the book. */
  lemma OnlyLimitOrdersVisible(h: seq<Op>, side: Side, p: real)
    requires p in VisiblePrices(h, side)
    ensures exists op :: && op in h && op.Add? && op.order.orderType == "L" && op.order.price == p
                         && (op.order.side == "B" <==> side == Bid)
  {
  }

  /** i is the latest limit order of the identifier, and nothing has removed it since. */
  ghost predicate StillRests(h: seq<Op>, i: int, id: string) {
    && 0 <= i < |h| && Rests(h[i]) && h[i].order.orderId == id
    && forall j :: i < j < |h| ==> h[j] != Remove(id) && !(Rests(h[j]) && h[j].order.orderId == id)
  }

  /** The plain book in terms of the whole history. */
  lemma {:induction false} LiveMeansStillRests(h: seq<Op>, id: string)
    ensures id in LiveOrders(h) <==> exists i :: StillRests(h, i, id)
    ensures forall i :: StillRests(h, i, id) ==> id in LiveOrders(h) && LiveOrders(h)[id] == h[i].order
  {
    if h != [] {
      var n, init := |h| - 1, h[..|h| - 1];
      LiveMeansStillRests(init, id);
      forall i | i < n
        ensures StillRests(h, i, id) <==>
                  StillRests(init, i, id) && h[n] != Remove(id) && !(Rests(h[n]) && h[n].order.orderId == id)
      {
      }
      if Rests(h[n]) && h[n].order.orderId == id { assert StillRests(h, n, id); }
    }
  }

  /** Soundness on one side, for every history: the plain book never shows more than the mirror. */
  lemma LiveIsVisible(h: seq<Op>, side: Side)
    ensures LivePrices(h, side) <= VisiblePrices(h, side)
  {
    forall id | id in LiveOrders(h) && SideOf(LiveOrders(h)[id]) == side
      ensures LiveOrders(h)[id].price in VisiblePrices(h, side)
    {
      LiveMeansStillRests(h, id);
      var i :| StillRests(h, i, id);
      assert h[i] in h;
    }
  }

  /** The best price the mirror reports is at least as good as that of every live order. */
  lemma TopCoversLiveOrders(h: seq<Op>, side: Side, r: real, id: string)
    requires IsTop(side, VisiblePrices(h, side), r)
    requires id in LiveOrders(h) && SideOf(LiveOrders(h)[id]) == side
    ensures !Better(side, LiveOrders(h)[id].price, r)
  {
    LiveIsVisible(h, side);
    assert LiveOrders(h)[id].price in LivePrices(h, side);
  }

  /** The history determines the best price, or the sentinel, on each side. */
  lemma TopIsUnique(side: Side, prices: set<real>, r: real, r': real)
    requires IsTop(side, prices, r) && IsTop(side, prices, r')
    ensures r == r'
  {
  }

  // ---- when the mirror agrees with the plain book ----------------------------------------

  /** Every identifier is used by at most one limit order. */
  ghost predicate FreshIds(h: seq<Op>) {
    forall i, j :: 0 <= i < j < |h| && Rests(h[i]) && Rests(h[j]) ==> h[i].order.orderId != h[j].order.orderId
  }

  lemma FreshIdsAgree(h: seq<Op>, side: Side)
    requires FreshIds(h)
    ensures VisiblePrices(h, side) == LivePrices(h, side)
  {
    LiveIsVisible(h, side);
    forall op | op in h && Rests(op) && SideOf(op.order) == side && op.order.orderId in LiveOrders(h)
      ensures op.order.price in LivePrices(h, side)
    {
      var k :| 0 <= k < |h| && h[k] == op;
      LiveMeansStillRests(h, op.order.orderId);
      var i :| StillRests(h, i, op.order.orderId);
      assert i == k;
    }
  }

  /** Both books have a best price on the side, and the same one, or neither has. */
  ghost predicate SameTop(h: seq<Op>, side: Side) {
    SameBest(side, VisiblePrices(h, side), LivePrices(h, side))
  }

  ghost predicate SameBest(side: Side, a: set<real>, b: set<real>) {
    && (a == {} <==> b == {})
    && forall p :: IsBest(side, a, p) <==> IsBest(side, b, p)
  }

  /** Every earlier limit order of a live identifier was on the same side at no better a price. */
  ghost predicate ReusesHarmless(h: seq<Op>) {
    forall op :: op in h && Rests(op) && op.order.orderId in LiveOrders(h) ==>
      var now := LiveOrders(h)[op.order.orderId];
      SideOf(op.order) == SideOf(now) && !Better(SideOf(now), op.order.price, now.price)
  }

  function Removals(ids: seq<string>): seq<Op> {
    seq(|ids|, i requires 0 <= i < |ids| => Remove(ids[i]))
  }

  ghost predicate Covered(side: Side, p: real, prices: set<real>) {
    exists q :: q in prices && !Better(side, p, q)
  }

  lemma HarmlessAfterRemovals(h: seq<Op>, ids: seq<string>)
    requires ReusesHarmless(h)
    ensures ReusesHarmless(h + Removals(ids))
  {
    RemovalsOnlyRemove(h, ids);
  }

  lemma HarmlessGivesSameTop(h: seq<Op>, side: Side)
    requires ReusesHarmless(h)
    ensures SameTop(h, side)
  {
    LiveIsVisible(h, side);
    forall p | p in VisiblePrices(h, side) ensures Covered(side, p, LivePrices(h, side)) {
      HarmlessCover(h, side, p);
    }
    CofinalBest(side, VisiblePrices(h, side), LivePrices(h, side));
  }

  lemma HarmlessCover(h: seq<Op>, side: Side, p: real)
    requires ReusesHarmless(h) && p in VisiblePrices(h, side)
    ensures Covered(side, p, LivePrices(h, side))
  {
    var op :| op in h && Rests(op) && SideOf(op.order) == side && op.order.orderId in LiveOrders(h) && op.order.price == p;
    assert LiveOrders(h)[op.order.orderId].price in LivePrices(h, side);
  }

  lemma CofinalBest(side: Side, more: set<real>, fewer: set<real>)
    requires fewer <= more && forall p :: p in more ==> Covered(side, p, fewer)
    ensures SameBest(side, more, fewer)
  {
    if fewer == {} {
      forall p ensures p !in more { assert !Covered(side, p, fewer); }
    }
    forall p ensures IsBest(side, more, p) <==> IsBest(side, fewer, p) {
      if IsBest(side, more, p) {
        assert Covered(side, p, fewer);
        assert forall q :: q in fewer && !Better(side, p, q) ==> p == q;
      }
      if IsBest(side, fewer, p) {
        forall r | r in more ensures !Better(side, r, p) {
          assert Covered(side, r, fewer);
        }
      }
    }
  }

  lemma {:induction false} RemovalsOnlyRemove(h: seq<Op>, ids: seq<string>)
    ensures forall id :: id in LiveOrders(h + Removals(ids)) <==> id in LiveOrders(h) && id !in ids
    ensures forall id :: id in LiveOrders(h + Removals(ids)) ==> LiveOrders(h + Removals(ids))[id] == LiveOrders(h)[id]
    ensures forall op :: Rests(op) ==> (op in h + Removals(ids) <==> op in h)
  {
    if ids == [] {
      assert h + Removals(ids) == h;
    } else {
      var init, last := ids[..|ids| - 1], ids[|ids| - 1];
      RemovalsOnlyRemove(h, init);
      assert ids == init + [last];
      assert h + Removals(ids) == (h + Removals(init)) + [Remove(last)];
      AfterRemove(h + Removals(init), last);
    }
  }

  /** The exact condition: the best prices of both sides stay right, whatever is filled or cancelled
      next, if and only if re-used identifiers are harmless. */
  lemma BooksAgreeIff(h: seq<Op>)
    ensures (forall ids, side :: SameTop(h + Removals(ids), side)) <==> ReusesHarmless(h)
  {
    if ReusesHarmless(h) {
      forall ids, side ensures SameTop(h + Removals(ids), side) {
        HarmlessAfterRemovals(h, ids);
        HarmlessGivesSameTop(h + Removals(ids), side);
      }
    } else {
      var op :| op in h && Rests(op) && op.order.orderId in LiveOrders(h)
                && (var now := LiveOrders(h)[op.order.orderId];
                    !(SideOf(op.order) == SideOf(now) && !Better(SideOf(now), op.order.price, now.price)));
      var others := Sets.Enumerate(LiveOrders(h).Keys - {op.order.orderId});
      RemovalsOnlyRemove(h, others);
      LoneReuseShows(h + Removals(others), op);
    }
  }

  /** When the re-used identifier is the only live one, the best price of the old order's side is wrong. */
  lemma LoneReuseShows(h: seq<Op>, op: Op)
    requires op in h && Rests(op) && LiveOrders(h).Keys == {op.order.orderId}
    requires var now := LiveOrders(h)[op.order.orderId];
             SideOf(op.order) != SideOf(now) || Better(SideOf(now), op.order.price, now.price)
    ensures !SameTop(h, SideOf(op.order))
  {
    var side, now := SideOf(op.order), LiveOrders(h)[op.order.orderId];
    assert op.order.price in VisiblePrices(h, side);
    if SideOf(now) != side {
      assert LivePrices(h, side) == {};
    } else {
      assert LivePrices(h, side) == {now.price} && IsBest(side, LivePrices(h, side), now.price);
    }
  }

  /** Re-use is not harmless in general: a buy at 101 that was cancelled shows again when its
      identifier comes back at 99. */
  lemma RevivedOrderMisleads(first: Event, again: Event)
    requires first.orderType == again.orderType == "L" && first.side == again.side == "B"
    requires first.orderId == again.orderId && first.price == 101.0 && again.price == 99.0
    ensures var h := [Add(first), Remove(first.orderId), Add(again)];
            IsTop(Bid, VisiblePrices(h, Bid), 101.0) && IsTop(Bid, LivePrices(h, Bid), 99.0)
  {
    var h := [Add(first), Remove(first.orderId), Add(again)];
    assert h[..2] == [Add(first), Remove(first.orderId)] && h[..2][..1] == [Add(first)] && h[..2][..1][..0] == [];
    assert LiveOrders(h[..2][..1]) == map[first.orderId := first];
    assert LiveOrders(h[..2]) == map[];
    assert LiveOrders(h) == map[again.orderId := again];
    assert VisiblePrices(h, Bid) == {101.0, 99.0} by {
      assert Add(first) in h && Add(again) in h;
    }
    assert LivePrices(h, Bid) == {99.0};
  }

  // ---- the book itself -------------------------------------------------------------------

  class OrderBook {
    var bids: seq<PriceLevel>  // descending price
    var asks: seq<PriceLevel>  // ascending price
    var orderIndex: map<string, LiveOrder>
    ghost var history: seq<Op>

    ghost predicate Valid()
      reads this
    {
      && Mirrors(bids, Bid, history)
      && Mirrors(asks, Ask, history)
      && orderIndex == IndexOf(LiveOrders(history))
    }

    constructor ()
      ensures Valid() && history == []
    {
      bids, asks, orderIndex, history := [], [], map[], [];
    }

    method AddOrder(e: Event)
      requires Valid()
      modifies this
      ensures Valid() && history == old(history) + [Add(e)]
      ensures e.orderType != "L" ==> bids == old(bids) && asks == old(asks) && orderIndex == old(orderIndex)
      ensures e.orderType == "L" ==> orderIndex == old(orderIndex)[e.orderId := LiveOrder(e.orderId, e.seqNo, e.qty, e.tSendNs)]
      ensures e.orderType == "L" && e.side == "B" ==> asks == old(asks)
      ensures e.orderType == "L" && e.side != "B" ==> bids == old(bids)
    {
      AfterAdd(history, e);
      IndexAfter(LiveOrders(history), e.orderId, e);
      history := history + [Add(e)];
      if e.orderType != "L" { return; }
      var lo := LiveOrder(e.orderId, e.seqNo, e.qty, e.tSendNs);
      orderIndex := orderIndex[e.orderId := lo];
      if e.side == "B" {
        bids := Insert(bids, Bid, e.price, lo);
      } else {
        asks := Insert(asks, Ask, e.price, lo);
      }
    }

    /** insertBid and insertAsk: append to the level of the price, or add a level and sort. */
    static method Insert(levels: seq<PriceLevel>, side: Side, price: Float, lo: LiveOrder) returns (r: seq<PriceLevel>)
      requires StrictlySorted(levels, side) && NoEmptyLevel(levels)
      ensures StrictlySorted(r, side) && NoEmptyLevel(r)
      ensures forall p :: OrdersAt(r, p) == OrdersAt(levels, p) + if p == price then [lo] else []
    {
      for i := 0 to |levels|
        invariant forall k :: 0 <= k < i ==> levels[k].price != price
      {
        if levels[i].price == price {
          r := levels[i := PriceLevel(price, levels[i].orders + [lo])];
          OrdersAtIndex(levels, i);
          forall p ensures OrdersAt(r, p) == OrdersAt(levels, p) + if p == price then [lo] else [] {
            OrdersAtUpdate(levels, i, levels[i].orders + [lo], p);
          }
          return;
        }
      }
      OrdersAtNone(levels, price);
      r := SortLevels(levels + [PriceLevel(price, [lo])], side);
      SortKeeps(levels + [PriceLevel(price, [lo])], side);
      forall p ensures OrdersAt(r, p) == OrdersAt(levels, p) + if p == price then [lo] else [] {
        OrdersAtSnoc(levels, PriceLevel(price, [lo]), p);
      }
    }

    method RemoveOrder(id: string)
      requires Valid()
      modifies this
      ensures Valid() && history == old(history) + [Remove(id)]
      ensures bids == old(bids) && asks == old(asks) && orderIndex == old(orderIndex) - {id}
    {
      hide LiveOrders, Arrivals;
      AfterRemove(history, id);
      orderIndex := orderIndex - {id};
      assert orderIndex == IndexOf(LiveOrders(history) - {id});
      history := history + [Remove(id)];
    }

    method BestBid() returns (r: Float)
      requires Valid()
      ensures IsTop(Bid, VisiblePrices(history, Bid), r)
      ensures VisiblePrices(history, Bid) == {} ==> r == 0.0
      ensures forall other :: IsTop(Bid, VisiblePrices(history, Bid), other) ==> other == r
    {
      r := Scan(bids, Bid);
      forall other | IsTop(Bid, VisiblePrices(history, Bid), other) ensures other == r {
        TopIsUnique(Bid, VisiblePrices(history, Bid), other, r);
      }
    }

    method BestAsk() returns (r: Float)
      requires Valid()
      ensures IsTop(Ask, VisiblePrices(history, Ask), r)
      ensures VisiblePrices(history, Ask) == {} ==> r == MAX_FLOAT64
      ensures forall other :: IsTop(Ask, VisiblePrices(history, Ask), other) ==> other == r
    {
      r := Scan(asks, Ask);
      forall other | IsTop(Ask, VisiblePrices(history, Ask), other) ensures other == r {
        TopIsUnique(Ask, VisiblePrices(history, Ask), other, r);
      }
    }

    /** The scan of BestBid and BestAsk: the first indexed order decides. */
    method Scan(levels: seq<PriceLevel>, side: Side) returns (r: Float)
      requires Valid() && Mirrors(levels, side, history)
      ensures IsTop(side, VisiblePrices(history, side), r)
    {
      for i := 0 to |levels|
        invariant forall k, lo :: 0 <= k < i && lo in levels[k].orders ==> lo.orderId !in orderIndex
      {
        var orders := levels[i].orders;
        for j := 0 to |orders|
          invariant forall k :: 0 <= k < j ==> orders[k].orderId !in orderIndex
        {
          if orders[j].orderId in orderIndex {
            r := levels[i].price;
            assert orders[j] in orders;
            ScanFound(levels, side, history, i);
            return;
          }
        }
      }
      r := Sentinel(side);
      forall p ensures p !in VisiblePrices(history, side) {
        LevelsDecide(levels, side, history, p);
      }
    }
  }

  lemma {:induction false} OrdersAtSnoc(levels: seq<PriceLevel>, level: PriceLevel, p: real)
    requires OrdersAt(levels, level.price) == []
    requires NoEmptyLevel(levels)
    ensures OrdersAt(levels + [level], p) == if p == level.price then level.orders else OrdersAt(levels, p)
  {
    if levels != [] {
      OrdersAtSnoc(levels[1..], level, p);
      assert (levels + [level])[1..] == levels[1..] + [level];
    }
  }

  /** A price is in sight exactly when some level at that price holds an indexed order. */
  lemma LevelsDecide(levels: seq<PriceLevel>, side: Side, h: seq<Op>, p: real)
    requires Mirrors(levels, side, h)
    ensures p in VisiblePrices(h, side) <==>
              exists k, lo :: 0 <= k < |levels| && levels[k].price == p && lo in levels[k].orders && lo.orderId in LiveOrders(h)
  {
    VisibleIff(h, side, p);
    assert OrdersAt(levels, p) == Arrivals(h, side, p);
    if p in VisiblePrices(h, side) {
      var k := OrdersAtFind(levels, p);
    }
    if k, lo :| 0 <= k < |levels| && levels[k].price == p && lo in levels[k].orders && lo.orderId in LiveOrders(h) {
      OrdersAtIndex(levels, k);
    }
  }

  lemma ScanFound(levels: seq<PriceLevel>, side: Side, h: seq<Op>, i: nat)
    requires Mirrors(levels, side, h) && i < |levels|
    requires forall k, lo :: 0 <= k < i && lo in levels[k].orders ==> lo.orderId !in LiveOrders(h)
    requires exists lo :: lo in levels[i].orders && lo.orderId in LiveOrders(h)
    ensures IsBest(side, VisiblePrices(h, side), levels[i].price)
  {
    LevelsDecide(levels, side, h, levels[i].price);
    forall q | q in VisiblePrices(h, side) ensures !Better(side, q, levels[i].price) {
      LevelsDecide(levels, side, h, q);
    }
  }
}
