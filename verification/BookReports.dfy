/** When the values that BestBid and BestAsk return are those of the plain book. They cannot tell an
    empty side from one whose best price is the sentinel, so that re-use can be harmless for them
    although the books differ. */
module BookReports {
  import opened OrderBooks
  import Sets

  /** The prices at which an identifier was ever limit-acknowledged on a side. */
  ghost function Uses(h: seq<Op>, side: Side, id: string): set<real> {
    set op | op in h && Rests(op) && op.order.orderId == id && SideOf(op.order) == side :: op.order.price
  }

  /** A live identifier with uses on the side that its live order is not on. */
  ghost predicate IsStray(h: seq<Op>, side: Side, id: string) {
    id in LiveOrders(h) && SideOf(LiveOrders(h)[id]) != side && Uses(h, side, id) != {}
  }

  /** On the side of the live order no use was at a better price; on the other side there was none, or
      the best was at the sentinel. */
  ghost predicate HarmlessUses(h: seq<Op>, side: Side, id: string)
    requires id in LiveOrders(h)
  {
    var now := LiveOrders(h)[id];
    if SideOf(now) == side then forall p :: p in Uses(h, side, id) ==> !Better(side, p, now.price)
    else Uses(h, side, id) == {} || IsBest(side, Uses(h, side, id), Sentinel(side))
  }

  /** All uses of live identifiers are harmless, and where a stray one stands at the sentinel no live
      order is at a worse price: for bids a negative one, for asks there is none. */
  ghost predicate ReportsHarmless(h: seq<Op>) {
    && (forall id, side :: id in LiveOrders(h) ==> HarmlessUses(h, side, id))
    && (forall id, side, p :: IsStray(h, side, id) && p in LivePrices(h, side) ==> !Better(side, Sentinel(side), p))
  }

  /** The mirror and the plain book report the same number. */
  ghost predicate SameReport(h: seq<Op>, side: Side) {
    forall r :: IsTop(side, VisiblePrices(h, side), r) <==> IsTop(side, LivePrices(h, side), r)
  }

  lemma VisibleIsUse(h: seq<Op>, side: Side, p: real)
    ensures p in VisiblePrices(h, side) <==> exists id :: id in LiveOrders(h) && p in Uses(h, side, id)
  {
    if p in VisiblePrices(h, side) {
      var op :| op in h && Rests(op) && SideOf(op.order) == side && op.order.orderId in LiveOrders(h) && op.order.price == p;
      assert p in Uses(h, side, op.order.orderId);
    }
  }

  lemma UsesAfterRemovals(h: seq<Op>, ids: seq<string>, side: Side, id: string)
    ensures Uses(h + Removals(ids), side, id) == Uses(h, side, id)
  {
    RemovalsOnlyRemove(h, ids);
  }

  lemma HarmlessReportsStay(h: seq<Op>, ids: seq<string>)
    requires ReportsHarmless(h)
    ensures ReportsHarmless(h + Removals(ids))
  {
    var after := h + Removals(ids);
    RemovalsOnlyRemove(h, ids);
    forall id, side | id in LiveOrders(after) ensures HarmlessUses(after, side, id) {
      UsesAfterRemovals(h, ids, side, id);
      assert HarmlessUses(h, side, id);
    }
    forall id, side, p | IsStray(after, side, id) && p in LivePrices(after, side) ensures !Better(side, Sentinel(side), p) {
      UsesAfterRemovals(h, ids, side, id);
      assert IsStray(h, side, id) && p in LivePrices(h, side);
    }
  }

  /** A visible price is no better than some live one, or stray and no better than the sentinel. */
  lemma VisibleIsCoveredOrStray(h: seq<Op>, side: Side, p: real)
    requires ReportsHarmless(h) && p in VisiblePrices(h, side)
    ensures Covered(side, p, LivePrices(h, side))
            || exists id :: && IsStray(h, side, id) && IsBest(side, Uses(h, side, id), Sentinel(side))
                            && !Better(side, p, Sentinel(side))
  {
    VisibleIsUse(h, side, p);
    var id :| id in LiveOrders(h) && p in Uses(h, side, id);
    assert HarmlessUses(h, side, id);
    var now := LiveOrders(h)[id];
    if SideOf(now) == side {
      assert now.price in LivePrices(h, side);
    } else {
      assert IsStray(h, side, id);
    }
  }

  lemma HarmlessGivesSameReport(h: seq<Op>, side: Side)
    requires ReportsHarmless(h)
    ensures SameReport(h, side)
  {
    var visible, live := VisiblePrices(h, side), LivePrices(h, side);
    LiveIsVisible(h, side);
    if id :| IsStray(h, side, id) && live == {} {
      StrayOnly(h, side, id);
    } else {
      forall p | p in visible ensures Covered(side, p, live) {
        VisibleIsCoveredOrStray(h, side, p);
        if id :| IsStray(h, side, id) && !Better(side, p, Sentinel(side)) {
          var q :| q in live;
          assert !Better(side, Sentinel(side), q);
        }
      }
      CofinalBest(side, visible, live);
    }
  }

  /** With a stray identifier and no live order on the side, both books report the sentinel. */
  lemma StrayOnly(h: seq<Op>, side: Side, id: string)
    requires ReportsHarmless(h) && IsStray(h, side, id) && LivePrices(h, side) == {}
    ensures SameReport(h, side)
  {
    assert HarmlessUses(h, side, id);
    VisibleIsUse(h, side, Sentinel(side));
    forall q | q in VisiblePrices(h, side) ensures !Better(side, q, Sentinel(side)) {
      VisibleIsCoveredOrStray(h, side, q);
    }
    assert IsBest(side, VisiblePrices(h, side), Sentinel(side));
  }

  // ---- the converse ----------------------------------------------------------------------

  lemma LoneUses(h: seq<Op>, side: Side, id: string)
    requires LiveOrders(h).Keys == {id}
    ensures VisiblePrices(h, side) == Uses(h, side, id)
    ensures LivePrices(h, side) == if SideOf(LiveOrders(h)[id]) == side then {LiveOrders(h)[id].price} else {}
  {
    forall p ensures p in VisiblePrices(h, side) <==> p in Uses(h, side, id) {
      VisibleIsUse(h, side, p);
    }
  }

  /** When an identifier with harmful uses is the only live one, the report is wrong. */
  lemma LoneHarmShows(h: seq<Op>, side: Side, id: string)
    requires LiveOrders(h).Keys == {id} && !HarmlessUses(h, side, id)
    ensures !SameReport(h, side)
  {
    LoneUses(h, side, id);
    var now := LiveOrders(h)[id];
    if SideOf(now) == side {
      assert IsTop(side, LivePrices(h, side), now.price);
    } else {
      assert IsTop(side, LivePrices(h, side), Sentinel(side));
    }
  }

  /** With one stray identifier at the sentinel and one live order at a worse price, the report is wrong. */
  lemma StrayHides(h: seq<Op>, side: Side, id: string, other: string)
    requires LiveOrders(h).Keys == {id, other} && SideOf(LiveOrders(h)[id]) != side && SideOf(LiveOrders(h)[other]) == side
    requires Sentinel(side) in Uses(h, side, id) && Better(side, Sentinel(side), LiveOrders(h)[other].price)
    ensures !SameReport(h, side)
  {
    var p := LiveOrders(h)[other].price;
    assert LivePrices(h, side) == {p};
    assert IsTop(side, LivePrices(h, side), p);
    VisibleIsUse(h, side, Sentinel(side));
  }

  lemma Keep(h: seq<Op>, kept: set<string>) returns (ids: seq<string>)
    requires kept <= LiveOrders(h).Keys
    ensures LiveOrders(h + Removals(ids)).Keys == kept
    ensures forall id :: id in kept ==> LiveOrders(h + Removals(ids))[id] == LiveOrders(h)[id]
  {
    ids := Sets.Enumerate(LiveOrders(h).Keys - kept);
    RemovalsOnlyRemove(h, ids);
  }

  lemma HarmfulShows(h: seq<Op>, id: string, side: Side) returns (ids: seq<string>)
    requires id in LiveOrders(h) && !HarmlessUses(h, side, id)
    ensures !SameReport(h + Removals(ids), side)
  {
    ids := Keep(h, {id});
    UsesAfterRemovals(h, ids, side, id);
    LoneHarmShows(h + Removals(ids), side, id);
  }

  lemma HidingShows(h: seq<Op>, id: string, side: Side, p: real) returns (ids: seq<string>)
    requires IsStray(h, side, id) && HarmlessUses(h, side, id)
    requires p in LivePrices(h, side) && Better(side, Sentinel(side), p)
    ensures !SameReport(h + Removals(ids), side)
  {
    var other :| other in LiveOrders(h) && SideOf(LiveOrders(h)[other]) == side && LiveOrders(h)[other].price == p;
    ids := Keep(h, {id, other});
    UsesAfterRemovals(h, ids, side, id);
    StrayHides(h + Removals(ids), side, id, other);
  }

  /** The exact condition for the values returned: they stay the plain book's, whatever is filled or
      cancelled next, if and only if re-used identifiers are harmless in this sense. */
  lemma ReportsAgreeIff(h: seq<Op>)
    ensures (forall ids, side :: SameReport(h + Removals(ids), side)) <==> ReportsHarmless(h)
  {
    if ReportsHarmless(h) {
      forall ids, side ensures SameReport(h + Removals(ids), side) {
        HarmlessReportsStay(h, ids);
        HarmlessGivesSameReport(h + Removals(ids), side);
      }
    } else if id, side :| id in LiveOrders(h) && !HarmlessUses(h, side, id) {
      var ids := HarmfulShows(h, id, side);
    } else {
      var id, side, p :| IsStray(h, side, id) && p in LivePrices(h, side) && Better(side, Sentinel(side), p);
      var ids := HidingShows(h, id, side, p);
    }
  }
}
