/** The orders in which the elements of a set can be visited. */
module Sets {

  /** Every element once, and nothing else. */
  ghost predicate IsOrderOf(order: seq<string>, ids: set<string>) {
    && (forall id :: id in order <==> id in ids)
    && (forall i, j :: 0 <= i < j < |order| ==> order[i] != order[j])
  }

  lemma {:induction false} Enumerate(ids: set<string>) returns (order: seq<string>)
    ensures IsOrderOf(order, ids)
  {
    if ids == {} { order := []; } else {
      var id :| id in ids;
      order := Enumerate(ids - {id});
      order := order + [id];
    }
  }
}
