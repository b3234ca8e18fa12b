/** Algorithm R as the latency reservoir runs it, and the exact counting theorems behind it.

    A record is named by its position among the positive latencies. A draw sequence holds one
    draw for every record that arrives at a full reservoir, in arrival order; the draw for a
    record is taken below the `totalOrders` value of that moment, so the bounds are given by a
    sequence `totals`: totals[i] is `totalOrders` when positive latency number i is recorded. */
module Reservoir {

  // ---- the sampling step and the space of draws ------------------------------------------

  /** What one record does to the slots: append while there is room, otherwise replace the drawn slot. */
  function Offer(k: nat, slots: seq<nat>, item: nat, draw: nat): seq<nat> {
    if |slots| < k then slots + [item]
    else if draw < |slots| then slots[draw := item]
    else slots
  }

  function DrawCount(k: nat, n: nat): nat {
    if n <= k then 0 else n - k
  }

  /** The slots after records 0, ..., n-1 with the given draws. */
  function Final(k: nat, n: nat, draws: seq<nat>): (slots: seq<nat>)
    requires |draws| == DrawCount(k, n)
    ensures |slots| == if n <= k then n else k
    decreases n
  {
    if n == 0 then []
    else if n <= k then Offer(k, Final(k, n - 1, []), n - 1, 0)
    else Offer(k, Final(k, n - 1, draws[..n - 1 - k]), n - 1, draws[n - 1 - k])
  }

  ghost function Below(n: nat): (s: set<nat>)
    ensures forall d: nat :: d in s <==> d < n
  {
    var numbers := seq(n, i requires 0 <= i < n => i);
    assert forall d: nat :: d in numbers <==> d < n by {
      forall d: nat | d < n ensures d in numbers { assert numbers[d] == d; }
    }
    set d | d in numbers
  }

  lemma {:induction false} BelowSize(n: nat)
    ensures |Below(n)| == n
  {
    if n > 0 {
      BelowSize(n - 1);
      assert Below(n) == Below(n - 1) + {n - 1};
    } else {
      assert Below(0) == {};
    }
  }

  /** Each sequence of the space, continued by each draw that `next` allows after it. */
  ghost function Extend(space: set<seq<nat>>, next: seq<nat> -> set<nat>): set<seq<nat>> {
    set draws, d | draws in space && d in next(draws) :: draws + [d]
  }

  ghost function AnyBelow(n: nat): seq<nat> -> set<nat> {
    draws => Below(n)
  }

  ghost function Where(space: set<seq<nat>>, good: seq<nat> -> bool): set<seq<nat>> {
    set draws | draws in space && good(draws)
  }

  /** Every draw sequence the random source can produce for the first n records; all are equally likely. */
  ghost function Space(k: nat, totals: seq<nat>, n: nat): set<seq<nat>>
    requires n <= |totals|
    decreases n
  {
    if n <= k then {[]} else Extend(Space(k, totals, n - 1), AnyBelow(totals[n - 1]))
  }

  /** The draw sequences that leave record r in the reservoir. */
  ghost function Hits(k: nat, totals: seq<nat>, n: nat, r: nat): set<seq<nat>>
    requires n <= |totals|
  {
    Where(Space(k, totals, n), Keeping(k, n, r))
  }

  ghost function Keeping(k: nat, n: nat, r: nat): seq<nat> -> bool {
    draws => Keeps(k, n, draws, r)
  }

  ghost predicate Keeps(k: nat, n: nat, draws: seq<nat>, r: nat) {
    |draws| == DrawCount(k, n) && r in Final(k, n, draws)
  }

  /** The draw sequences whose final reservoir holds exactly the records of the sample. */
  ghost function Leaving(k: nat, totals: seq<nat>, n: nat, sample: set<nat>): set<seq<nat>>
    requires n <= |totals|
  {
    Where(Space(k, totals, n), Being(k, n, sample))
  }

  ghost function Being(k: nat, n: nat, sample: set<nat>): seq<nat> -> bool {
    draws => Holds(k, n, draws, sample)
  }

  ghost predicate Holds(k: nat, n: nat, draws: seq<nat>, sample: set<nat>) {
    |draws| == DrawCount(k, n) && Kept(k, n, draws) == sample
  }

  ghost function Kept(k: nat, n: nat, draws: seq<nat>): set<nat>
    requires |draws| == DrawCount(k, n)
  {
    set r | r in Final(k, n, draws)
  }

  /** `totalOrders` grows by at least one per record. */
  ghost predicate IsTotals(totals: seq<nat>) {
    && (forall i :: 0 <= i < |totals| ==> i < totals[i])
    && (forall i, j :: 0 <= i < j < |totals| ==> totals[i] < totals[j])
  }

  /** The totals of a run in which every latency is positive: 1, 2, ... */
  ghost predicate AllPositive(totals: seq<nat>, n: nat)
    requires n <= |totals|
  {
    forall i :: 0 <= i < n ==> totals[i] == i + 1
  }

  // ---- products --------------------------------------------------------------------------

  /** A product kept as a function, so that the counting proofs stay linear. */
  ghost function Times(a: nat, b: nat): nat {
    if a == 0 then 0 else Times(a - 1, b) + b
  }

  lemma {:induction false} TimesIsProduct(a: nat, b: nat)
    ensures Times(a, b) == a * b
  {
    if a > 0 { TimesIsProduct(a - 1, b); }
  }

  lemma TimesCommutes(a: nat, b: nat)
    ensures Times(a, b) == Times(b, a)
  {
    TimesIsProduct(a, b);
    TimesIsProduct(b, a);
  }

  lemma {:induction false} TimesSwap(s: nat, k: nat, n: nat)
    ensures Times(Times(s, k), n) == Times(Times(s, n), k)
  {
    if s > 0 {
      TimesSwap(s - 1, k, n);
      TimesAdds(Times(s - 1, k), k, n);
      TimesAdds(Times(s - 1, n), n, k);
      TimesCommutes(k, n);
    }
  }

  lemma {:induction false} TimesAdds(a: nat, b: nat, c: nat)
    ensures Times(a + b, c) == Times(a, c) + Times(b, c)
  {
    if b > 0 { TimesAdds(a, b - 1, c); }
  }

  lemma {:induction false} TimesStrict(a: nat, b: nat, c: nat)
    requires a > 0 && b < c
    ensures Times(a, b) < Times(a, c)
  {
    if a > 1 { TimesStrict(a - 1, b, c); }
  }

  // ---- counting --------------------------------------------------------------------------

  lemma {:induction false} ImageSize(prefix: seq<nat>, ds: set<nat>)
    ensures |set d | d in ds :: prefix + [d]| == |ds|
  {
    var image := set d | d in ds :: prefix + [d];
    if ds == {} {
      assert image == {};
    } else {
      var d0 :| d0 in ds;
      ImageSize(prefix, ds - {d0});
      var rest := set d | d in ds - {d0} :: prefix + [d];
      forall d | d in ds - {d0} ensures prefix + [d] != prefix + [d0] {
        assert (prefix + [d])[|prefix|] == d && (prefix + [d0])[|prefix|] == d0;
      }
      assert image == rest + {prefix + [d0]};
    }
  }

  lemma ExtendSplit(space: set<seq<nat>>, next: seq<nat> -> set<nat>, one: seq<nat>)
    requires one in space
    ensures var mine := set d | d in next(one) :: one + [d];
            var theirs := Extend(space - {one}, next);
            Extend(space, next) == theirs + mine && theirs !! mine
  {
    var mine := set d | d in next(one) :: one + [d];
    var theirs := Extend(space - {one}, next);
    forall x | x in Extend(space, next) ensures x in theirs + mine {
      var draws, d :| draws in space && d in next(draws) && x == draws + [d];
      if draws != one { assert draws in space - {one}; }
    }
    forall draws, d, e | draws in space - {one} && d in next(draws) && e in next(one)
      ensures draws + [d] != one + [e]
    {
      assert draws == (draws + [d])[..|draws + [d]| - 1] && one == (one + [e])[..|one + [e]| - 1];
    }
  }

  lemma DisjointSize(a: set<seq<nat>>, b: set<seq<nat>>)
    requires a !! b
    ensures |a + b| == |a| + |b|
  {
  }

  /** If every sequence has c continuations, there are c extensions per sequence. */
  lemma {:induction false} CountExtensions(space: set<seq<nat>>, next: seq<nat> -> set<nat>, c: nat)
    requires forall draws :: draws in space ==> |next(draws)| == c
    ensures |Extend(space, next)| == Times(|space|, c)
    decreases |space|
  {
    if space == {} {
      assert Extend(space, next) == {};
    } else {
      var one :| one in space;
      var others := space - {one};
      CountExtensions(others, next, c);
      ImageSize(one, next(one));
      ExtendSplit(space, next, one);
      DisjointSize(Extend(others, next), set d | d in next(one) :: one + [d]);
      assert |space| == |others| + 1;
    }
  }

  /** The extensions with a property, when the property only asks for some prefixes and some continuations. */
  lemma FilterExtend(space: set<seq<nat>>, next: seq<nat> -> set<nat>, good: seq<nat> -> bool,
                     space': set<seq<nat>>, next': seq<nat> -> set<nat>)
    requires space' <= space && forall draws :: draws in space' ==> next'(draws) <= next(draws)
    requires forall draws, d :: draws in space && d in next(draws) ==>
               (good(draws + [d]) <==> draws in space' && d in next'(draws))
    ensures Where(Extend(space, next), good) == Extend(space', next')
  {
    forall x | x in Extend(space, next) && good(x) ensures x in Extend(space', next') {
      var draws, d :| draws in space && d in next(draws) && x == draws + [d];
    }
    forall x | x in Extend(space', next') ensures x in Extend(space, next) && good(x) {
      var draws, d :| draws in space' && d in next'(draws) && x == draws + [d];
      assert draws in space && d in next(draws);
    }
  }

  lemma ExtendMember(space: set<seq<nat>>, next: seq<nat> -> set<nat>, draws: seq<nat>, d: nat)
    ensures draws + [d] in Extend(space, next) <==> draws in space && d in next(draws)
  {
    if draws + [d] in Extend(space, next) {
      var ds, e :| ds in space && e in next(ds) && draws + [d] == ds + [e];
      assert ds == (ds + [e])[..|ds|] == draws && (ds + [e])[|ds|] == d;
    }
  }

  lemma {:induction false} SpaceShape(k: nat, totals: seq<nat>, n: nat)
    requires n <= |totals|
    ensures forall draws :: draws in Space(k, totals, n) ==> |draws| == DrawCount(k, n)
    decreases n
  {
    if n > k { SpaceShape(k, totals, n - 1); }
  }

  /** The space is exactly the sequences whose every draw lies below the total of its moment. */
  lemma {:induction false} SpaceIsAllLegalDraws(k: nat, totals: seq<nat>, n: nat, draws: seq<nat>)
    requires n <= |totals|
    ensures draws in Space(k, totals, n) <==>
              && |draws| == DrawCount(k, n)
              && forall i :: 0 <= i < |draws| ==> draws[i] < totals[k + i]
    decreases n
  {
    if n > k && draws != [] {
      var prefix, last := draws[..|draws| - 1], draws[|draws| - 1];
      assert draws == prefix + [last];
      SpaceIsAllLegalDraws(k, totals, n - 1, prefix);
      ExtendMember(Space(k, totals, n - 1), AnyBelow(totals[n - 1]), prefix, last);
    }
  }

  lemma ShortSpace(k: nat, totals: seq<nat>, n: nat)
    requires n <= |totals| && n <= k
    ensures Space(k, totals, n) == {[]}
  {
  }

  /** Later records do not change the draws of the earlier ones. */
  lemma {:induction false} SpacePrefix(k: nat, totals: seq<nat>, n: nat, more: seq<nat>)
    requires n <= |totals|
    ensures Space(k, totals + more, n) == Space(k, totals, n)
    decreases n
  {
    if n > k { SpacePrefix(k, totals, n - 1, more); }
  }

  lemma SpaceSize(k: nat, totals: seq<nat>, n: nat)
    requires k < n <= |totals|
    ensures |Space(k, totals, n)| == Times(|Space(k, totals, n - 1)|, totals[n - 1])
  {
    BelowSize(totals[n - 1]);
    CountExtensions(Space(k, totals, n - 1), AnyBelow(totals[n - 1]), totals[n - 1]);
  }

  lemma {:induction false} SpaceNonEmpty(k: nat, totals: seq<nat>, n: nat)
    requires IsTotals(totals) && n <= |totals|
    ensures |Space(k, totals, n)| > 0
    decreases n
  {
    if n > k {
      SpaceNonEmpty(k, totals, n - 1);
      SpaceSize(k, totals, n);
      TimesStrict(|Space(k, totals, n - 1)|, 0, totals[n - 1]);
    }
  }

  // ---- facts about one run of the sampler ------------------------------------------------

  /** The reservoir never holds a record twice, holds only records seen so far, and is filled first. */
  lemma {:induction false} FinalDistinct(k: nat, n: nat, draws: seq<nat>)
    requires |draws| == DrawCount(k, n)
    ensures forall i :: 0 <= i < |Final(k, n, draws)| ==> Final(k, n, draws)[i] < n
    ensures forall i, j :: 0 <= i < j < |Final(k, n, draws)| ==> Final(k, n, draws)[i] != Final(k, n, draws)[j]
    ensures n <= k ==> forall i :: 0 <= i < n ==> Final(k, n, draws)[i] == i
    decreases n
  {
    if n > 0 {
      FinalDistinct(k, n - 1, if n <= k then [] else draws[..n - 1 - k]);
    }
  }

  lemma FinalSnoc(k: nat, n: nat, draws: seq<nat>, d: nat)
    requires n >= k && |draws| == DrawCount(k, n)
    ensures Final(k, n + 1, draws + [d]) == Offer(k, Final(k, n, draws), n, d)
  {
    assert (draws + [d])[..n - k] == draws;
  }

  /** Record n replaces whatever the draw names, and nothing else leaves. */
  lemma KeptAfter(k: nat, n: nat, draws: seq<nat>, d: nat)
    requires k <= n && |draws| == DrawCount(k, n)
    ensures Kept(k, n + 1, draws + [d])
            == if d < k then Kept(k, n, draws) - {Final(k, n, draws)[d]} + {n} else Kept(k, n, draws)
    ensures n !in Kept(k, n, draws)
  {
    var slots := Final(k, n, draws);
    FinalSnoc(k, n, draws, d);
    FinalDistinct(k, n, draws);
    if d < k {
      forall r | r in slots && r != slots[d] ensures r in slots[d := n] {
        var i :| 0 <= i < |slots| && slots[i] == r;
        assert slots[d := n][i] == r;
      }
      assert slots[d := n][d] == n;
    }
  }

  lemma SlotOf(k: nat, n: nat, draws: seq<nat>, r: nat) returns (slot: nat)
    requires k <= n && Keeps(k, n, draws, r)
    ensures slot < k && forall i :: 0 <= i < k ==> (Final(k, n, draws)[i] == r <==> i == slot)
  {
    FinalDistinct(k, n, draws);
    slot :| 0 <= slot < k && Final(k, n, draws)[slot] == r;
  }

  // ---- uniformity of one record ----------------------------------------------------------

  /** The newest record is kept by exactly the draws below k. */
  lemma NewestHits(k: nat, totals: seq<nat>, n: nat, t: nat)
    requires k <= n < |totals| && t == totals[n] && k <= t
    ensures |Hits(k, totals, n + 1, n)| == Times(|Space(k, totals, n)|, k)
  {
    var space := Space(k, totals, n);
    SpaceShape(k, totals, n);
    assert Where(Extend(space, AnyBelow(t)), Keeping(k, n + 1, n)) == Extend(space, AnyBelow(k)) by {
      forall draws, d | draws in space && d in AnyBelow(t)(draws)
        ensures Keeping(k, n + 1, n)(draws + [d]) <==> draws in space && d in AnyBelow(k)(draws)
      {
        KeptAfter(k, n, draws, d);
        assert n in Kept(k, n + 1, draws + [d]) <==> n in Final(k, n + 1, draws + [d]);
      }
      FilterExtend(space, AnyBelow(t), Keeping(k, n + 1, n), space, AnyBelow(k));
    }
    BelowSize(k);
    CountExtensions(space, AnyBelow(k), k);
  }

  /** The draws that do not name the slot of record r. */
  ghost function Sparing(k: nat, n: nat, bound: nat, r: nat): seq<nat> -> set<nat> {
    draws => SparingDraws(k, n, bound, draws, r)
  }

  ghost function SparingDraws(k: nat, n: nat, bound: nat, draws: seq<nat>, r: nat): (s: set<nat>)
    ensures s <= Below(bound)
  {
    if |draws| != DrawCount(k, n) then {}
    else set d | d in Below(bound) && !(d < |Final(k, n, draws)| && Final(k, n, draws)[d] == r)
  }

  lemma SparingCount(k: nat, n: nat, bound: nat, draws: seq<nat>, r: nat)
    requires k <= n < bound && Keeps(k, n, draws, r)
    ensures |SparingDraws(k, n, bound, draws, r)| == bound - 1
  {
    var slot := SlotOf(k, n, draws, r);
    BelowSize(bound);
    assert SparingDraws(k, n, bound, draws, r) == Below(bound) - {slot};
  }

  /** An older record survives every draw but the one that names its slot. */
  lemma OlderHits(k: nat, totals: seq<nat>, n: nat, t: nat, r: nat)
    requires k <= n < |totals| && r < n < t && t == totals[n]
    ensures |Hits(k, totals, n + 1, r)| == Times(|Hits(k, totals, n, r)|, t - 1)
  {
    var space, hits := Space(k, totals, n), Hits(k, totals, n, r);
    SpaceShape(k, totals, n);
    assert Where(Extend(space, AnyBelow(t)), Keeping(k, n + 1, r)) == Extend(hits, Sparing(k, n, t, r)) by {
      OlderHitsAre(k, n, t, space, hits, r);
    }
    forall draws | draws in hits ensures |Sparing(k, n, t, r)(draws)| == t - 1 {
      SparingCount(k, n, t, draws, r);
    }
    CountExtensions(hits, Sparing(k, n, t, r), t - 1);
  }

  lemma OlderHitsAre(k: nat, n: nat, t: nat, space: set<seq<nat>>, hits: set<seq<nat>>, r: nat)
    requires k <= n && r < n < t && hits == Where(space, Keeping(k, n, r))
    requires forall draws :: draws in space ==> |draws| == DrawCount(k, n)
    ensures Where(Extend(space, AnyBelow(t)), Keeping(k, n + 1, r)) == Extend(hits, Sparing(k, n, t, r))
  {
    forall draws, d | draws in space && d in AnyBelow(t)(draws)
      ensures Keeping(k, n + 1, r)(draws + [d]) <==> draws in hits && d in Sparing(k, n, t, r)(draws)
    {
      KeptAfter(k, n, draws, d);
      assert r in Kept(k, n + 1, draws + [d]) <==> r in Final(k, n + 1, draws + [d]);
      assert r in Kept(k, n, draws) <==> r in Final(k, n, draws);
    }
    FilterExtend(space, AnyBelow(t), Keeping(k, n + 1, r), hits, Sparing(k, n, t, r));
  }

  /** With positive latencies only, every record is kept by exactly k/n of the draw sequences. */
  lemma UniformWhenAllPositive(k: nat, totals: seq<nat>, n: nat, r: nat)
    requires k <= n <= |totals| && r < n && AllPositive(totals, n)
    ensures |Hits(k, totals, n, r)| * n == k * |Space(k, totals, n)|
  {
    UniformByInduction(k, totals, n, r);
    TimesIsProduct(|Hits(k, totals, n, r)|, n);
    TimesIsProduct(|Space(k, totals, n)|, k);
  }

  lemma {:induction false} UniformByInduction(k: nat, totals: seq<nat>, n: nat, r: nat)
    requires k <= n <= |totals| && r < n && AllPositive(totals, n)
    ensures Times(|Hits(k, totals, n, r)|, n) == Times(|Space(k, totals, n)|, k)
    decreases n
  {
    if n == k {
      UniformWhenFull(totals, n, r);
    } else {
      var p := n - 1;
      if r < p { UniformByInduction(k, totals, p, r); }
      UniformNext(k, totals, p, n, r);
    }
  }

  lemma UniformNext(k: nat, totals: seq<nat>, p: nat, n: nat, r: nat)
    requires k <= p < n <= |totals| && n == p + 1 && r < n && totals[p] == n
    requires r < p ==> Times(|Hits(k, totals, p, r)|, p) == Times(|Space(k, totals, p)|, k)
    ensures Times(|Hits(k, totals, n, r)|, n) == Times(|Space(k, totals, n)|, k)
  {
    UniformStep(k, totals, p, r);
    SpaceSize(k, totals, n);
    SwapFactors(|Space(k, totals, p)|, k, n, |Hits(k, totals, n, r)|, |Space(k, totals, n)|);
  }

  lemma SwapFactors(s: nat, k: nat, n: nat, hits: nat, all: nat)
    requires hits == Times(s, k) && all == Times(s, n)
    ensures Times(hits, n) == Times(all, k)
  {
    TimesSwap(s, k, n);
  }

  lemma UniformStep(k: nat, totals: seq<nat>, n: nat, r: nat)
    requires k <= n < |totals| && r <= n && totals[n] == n + 1
    requires r < n ==> Times(|Hits(k, totals, n, r)|, n) == Times(|Space(k, totals, n)|, k)
    ensures |Hits(k, totals, n + 1, r)| == Times(|Space(k, totals, n)|, k)
  {
    if r == n {
      NewestHits(k, totals, n, n + 1);
    } else {
      OlderHits(k, totals, n, n + 1, r);
    }
  }

  lemma UniformWhenFull(totals: seq<nat>, n: nat, r: nat)
    requires r < n <= |totals|
    ensures Times(|Hits(n, totals, n, r)|, n) == Times(|Space(n, totals, n)|, n)
  {
    FinalDistinct(n, n, []);
    assert Final(n, n, [])[r] == r;
    assert Hits(n, totals, n, r) == {[]};
  }

  /** Every record is kept by k/n of the draw sequences. */
  ghost predicate Uniform(k: nat, totals: seq<nat>) {
    forall r :: 0 <= r < |totals| ==> |Hits(k, totals, |totals|, r)| * |totals| == k * |Space(k, totals, |totals|)|
  }

  /** The last record's draw is bounded by the number of records. */
  predicate LastDrawBelowCount(totals: seq<nat>)
    requires totals != []
  {
    totals[|totals| - 1] == |totals|
  }

  /** The exact condition for a uniform sample, once the reservoir has overflowed: the draw bound
      of the last record equals the number of records, that is, nothing but positive latencies
      was counted into `totalOrders` up to it. */
  lemma UniformIff(k: nat, totals: seq<nat>)
    requires 0 < k < |totals| && IsTotals(totals)
    ensures Uniform(k, totals) <==> LastDrawBelowCount(totals)
  {
    var n := |totals|;
    if totals[n - 1] == n {
      LastTotalForcesAll(totals, n - 1);
      forall r | 0 <= r < n ensures |Hits(k, totals, n, r)| * n == k * |Space(k, totals, n)| {
        UniformWhenAllPositive(k, totals, n, r);
      }
    } else {
      NewestTooRare(k, totals, n, totals[n - 1]);
    }
  }

  lemma NewestTooRare(k: nat, totals: seq<nat>, n: nat, t: nat)
    requires 0 < k < n == |totals| && IsTotals(totals) && t == totals[n - 1] && n < t
    ensures |Hits(k, totals, n, n - 1)| * n < k * |Space(k, totals, n)|
  {
    hide IsTotals, Space, Hits, Times;
    var s, hits, all := |Space(k, totals, n - 1)|, |Hits(k, totals, n, n - 1)|, |Space(k, totals, n)|;
    NewestHits(k, totals, n - 1, t);
    SpaceSize(k, totals, n);
    SpaceNonEmpty(k, totals, n - 1);
    StrictProducts(s, k, n, t, hits, all);
  }

  lemma StrictProducts(s: nat, k: nat, n: nat, t: nat, hits: nat, all: nat)
    requires s > 0 && k > 0 && n < t && hits == Times(s, k) && all == Times(s, t)
    ensures hits * n < k * all
  {
    TimesSwap(s, t, k);
    TimesStrict(s, 0, k);
    TimesStrict(hits, n, t);
    TimesIsProduct(s, 0);
    TimesIsProduct(hits, n);
    TimesIsProduct(all, k);
  }

  lemma {:induction false} LastTotalForcesAll(totals: seq<nat>, i: nat)
    requires IsTotals(totals) && i < |totals| && totals[i] == i + 1
    ensures forall j :: 0 <= j <= i ==> totals[j] == j + 1
  {
    if i > 0 { LastTotalForcesAll(totals, i - 1); }
  }

  // ---- uniformity of the whole sample ----------------------------------------------------

  ghost function Factorial(n: nat): nat {
    if n == 0 then 1 else Times(Factorial(n - 1), n)
  }

  ghost predicate Under(sample: set<nat>, n: nat) {
    forall r :: r in sample ==> r < n
  }

  /** Simple random sampling without replacement: with positive latencies only, every set of k
      records is the final reservoir of the same number of draw sequences, namely (n - k)!. */
  lemma {:induction false} EverySampleEquallyLikely(k: nat, totals: seq<nat>, n: nat, sample: set<nat>, m: nat)
    requires n == m + k <= |totals| && AllPositive(totals, n) && |sample| == k && Under(sample, n)
    ensures |Leaving(k, totals, n, sample)| == Factorial(m)
    decreases m, 1
  {
    hide Leaving;
    if m == 0 {
      SampleWhenFull(totals, n, sample);
    } else if n - 1 in sample {
      var rest := WithoutOne(sample, n - 1);
      SamplesWithNewest(k, totals, n - 1, sample, rest, m);
    } else {
      SamplesWithoutNewest(k, totals, n - 1, sample, m);
    }
  }

  lemma SamplesWithoutNewest(k: nat, totals: seq<nat>, p: nat, sample: set<nat>, m: nat)
    requires m > 0 && p + 1 == m + k <= |totals| && AllPositive(totals, p + 1) && |sample| == k && Under(sample, p)
    ensures |Leaving(k, totals, p + 1, sample)| == Factorial(m)
    decreases m, 0
  {
    EverySampleEquallyLikely(k, totals, p, sample, m - 1);
    WithoutNewest(k, totals, p, sample, m);
  }

  lemma SamplesWithNewest(k: nat, totals: seq<nat>, p: nat, sample: set<nat>, rest: set<nat>, m: nat)
    requires m > 0 && p + 1 == m + k <= |totals| && AllPositive(totals, p + 1)
    requires sample == rest + {p} && |rest| + 1 == k && Under(rest, p)
    ensures |Leaving(k, totals, p + 1, sample)| == Factorial(m)
    decreases m, 0
  {
    var completing := CompletingWith(k, p, Space(k, totals, p), rest);
    forall x | x in Below(p) - rest ensures |completing(x)| == Factorial(m - 1) {
      WithOne(rest, x);
      EverySampleEquallyLikely(k, totals, p, rest + {x}, m - 1);
    }
    WithNewest(k, totals, p, rest, Factorial(m - 1), m);
  }

  lemma WithoutOne(sample: set<nat>, one: nat) returns (rest: set<nat>)
    requires one in sample
    ensures rest + {one} == sample && one !in rest && |rest| + 1 == |sample|
  {
    rest := sample - {one};
  }

  lemma WithOne(rest: set<nat>, one: nat)
    requires one !in rest
    ensures |rest + {one}| == |rest| + 1
  {
  }

  lemma SampleWhenFull(totals: seq<nat>, n: nat, sample: set<nat>)
    requires |sample| == n <= |totals| && Under(sample, n)
    ensures |Leaving(n, totals, n, sample)| == 1
  {
    FinalDistinct(n, n, []);
    assert sample == Below(n) by {
      BelowSize(n);
      assert sample <= Below(n) && |Below(n) - sample| == 0;
    }
    forall r | r in Below(n) ensures r in Kept(n, n, []) { assert Final(n, n, [])[r] == r; }
    assert Kept(n, n, []) == Below(n);
    assert Leaving(n, totals, n, sample) == {[]};
  }

  /** The draws that leave the reservoir alone. */
  ghost function Missing(k: nat, bound: nat): seq<nat> -> set<nat> {
    draws => Below(bound) - Below(k)
  }

  lemma WithoutNewest(k: nat, totals: seq<nat>, n: nat, sample: set<nat>, m: nat)
    requires k <= n < |totals| && m + k == n + 1 == totals[n] && n !in sample
    ensures |Leaving(k, totals, n + 1, sample)| == Times(|Leaving(k, totals, n, sample)|, m)
  {
    hide Final, Times;
    var space, before := Space(k, totals, n), Leaving(k, totals, n, sample);
    SpaceShape(k, totals, n);
    assert Where(Extend(space, AnyBelow(n + 1)), Being(k, n + 1, sample)) == Extend(before, Missing(k, n + 1)) by {
      forall draws, d | draws in space && d in AnyBelow(n + 1)(draws)
        ensures Being(k, n + 1, sample)(draws + [d]) <==> draws in before && d in Missing(k, n + 1)(draws)
      {
        KeptAfter(k, n, draws, d);
      }
      FilterExtend(space, AnyBelow(n + 1), Being(k, n + 1, sample), before, Missing(k, n + 1));
    }
    BelowSize(k);
    BelowSize(n + 1);
    assert Below(k) <= Below(n + 1);
    CountExtensions(before, Missing(k, n + 1), m);
  }

  /** The draws that evict a record outside `rest`. */
  ghost function Vacating(k: nat, n: nat, bound: nat, rest: set<nat>): seq<nat> -> set<nat> {
    draws => Evicting(k, n, bound, draws, rest)
  }

  ghost function Evicting(k: nat, n: nat, bound: nat, draws: seq<nat>, rest: set<nat>): (s: set<nat>)
    ensures s <= Below(bound)
  {
    if |draws| != DrawCount(k, n) then {}
    else set d | d in Below(bound) && d < |Final(k, n, draws)| && Final(k, n, draws)[d] !in rest
  }

  /** The draw sequences whose reservoir is `rest` and the given record. */
  ghost function CompletingWith(k: nat, n: nat, space: set<seq<nat>>, rest: set<nat>): nat -> set<seq<nat>> {
    x => Where(space, Being(k, n, rest + {x}))
  }

  ghost function Union(xs: set<nat>, part: nat -> set<seq<nat>>): set<seq<nat>> {
    set x, draws | x in xs && draws in part(x) :: draws
  }

  /** The draw sequences whose reservoir is `rest` and one more record. */
  ghost function Completed(k: nat, n: nat, space: set<seq<nat>>, rest: set<nat>): set<seq<nat>> {
    Union(Below(n) - rest, CompletingWith(k, n, space, rest))
  }

  ghost predicate IsCompleted(k: nat, n: nat, draws: seq<nat>, rest: set<nat>) {
    exists x :: x in Below(n) - rest && Holds(k, n, draws, rest + {x})
  }

  lemma CompletedMember(k: nat, n: nat, space: set<seq<nat>>, rest: set<nat>, draws: seq<nat>)
    ensures draws in Completed(k, n, space, rest) <==> draws in space && IsCompleted(k, n, draws, rest)
  {
    if draws in space && IsCompleted(k, n, draws, rest) {
      var x :| x in Below(n) - rest && Holds(k, n, draws, rest + {x});
      assert draws in CompletingWith(k, n, space, rest)(x);
    }
  }

  lemma WithNewest(k: nat, totals: seq<nat>, n: nat, rest: set<nat>, c: nat, m: nat)
    requires k <= n < |totals| && m + k == n + 1 == totals[n] && Under(rest, n) && |rest| + 1 == k
    requires forall x :: x in Below(n) - rest ==> |CompletingWith(k, n, Space(k, totals, n), rest)(x)| == c
    ensures |Leaving(k, totals, n + 1, rest + {n})| == Times(c, m)
  {
    var space := Space(k, totals, n);
    var completed := Completed(k, n, space, rest);
    SpaceShape(k, totals, n);
    assert Where(Extend(space, AnyBelow(n + 1)), Being(k, n + 1, rest + {n}))
           == Extend(completed, Vacating(k, n, n + 1, rest)) by {
      CompletedExtend(k, n, space, rest);
    }
    CompletedCount(k, n, space, rest, c, m);
    VacatingCount(k, n, space, rest);
    CountExtensions(completed, Vacating(k, n, n + 1, rest), 1);
    TimesIsProduct(|completed|, 1);
  }

  lemma CompletedCount(k: nat, n: nat, space: set<seq<nat>>, rest: set<nat>, c: nat, m: nat)
    requires Under(rest, n) && |rest| + 1 == k && m + k == n + 1
    requires forall x :: x in Below(n) - rest ==> |CompletingWith(k, n, space, rest)(x)| == c
    ensures |Completed(k, n, space, rest)| == Times(c, m)
  {
    var others, part := Below(n) - rest, CompletingWith(k, n, space, rest);
    assert |Union(others, part)| == Times(|others|, c) by {
      forall x, y, draws | x in others && y in others && draws in part(x) && draws in part(y) ensures x == y {
        assert x in rest + {x} && rest + {x} == rest + {y};
      }
      UnionSize(others, part, c);
    }
    assert |others| == m by {
      BelowSize(n);
      assert rest <= Below(n);
    }
    TimesCommutes(m, c);
  }

  lemma {:induction false} UnionSize(xs: set<nat>, part: nat -> set<seq<nat>>, c: nat)
    requires forall x :: x in xs ==> |part(x)| == c
    requires forall x, y, draws :: x in xs && y in xs && draws in part(x) && draws in part(y) ==> x == y
    ensures |Union(xs, part)| == Times(|xs|, c)
    decreases |xs|
  {
    if xs == {} {
      assert Union(xs, part) == {};
    } else {
      var x :| x in xs;
      var fewer := xs - {x};
      UnionSize(fewer, part, c);
      UnionSplit(fewer, x, part);
      assert xs == fewer + {x} && |xs| == |fewer| + 1;
      DisjointSize(Union(fewer, part), part(x));
    }
  }

  lemma UnionSplit(fewer: set<nat>, one: nat, part: nat -> set<seq<nat>>)
    requires one !in fewer && forall x, draws :: x in fewer && draws in part(x) && draws in part(one) ==> x == one
    ensures Union(fewer + {one}, part) == Union(fewer, part) + part(one) && Union(fewer, part) !! part(one)
  {
  }

  lemma CompletedExtend(k: nat, n: nat, space: set<seq<nat>>, rest: set<nat>)
    requires k <= n && Under(rest, n) && forall draws :: draws in space ==> |draws| == DrawCount(k, n)
    ensures Where(Extend(space, AnyBelow(n + 1)), Being(k, n + 1, rest + {n}))
            == Extend(Completed(k, n, space, rest), Vacating(k, n, n + 1, rest))
  {
    forall draws, d | draws in space && d in AnyBelow(n + 1)(draws)
      ensures Being(k, n + 1, rest + {n})(draws + [d])
              <==> draws in Completed(k, n, space, rest) && d in Vacating(k, n, n + 1, rest)(draws)
    {
      CompletedMember(k, n, space, rest, draws);
      NewestCompletes(k, n, draws, d, rest);
    }
    forall draws | draws in Completed(k, n, space, rest) ensures draws in space {
      CompletedMember(k, n, space, rest, draws);
    }
    FilterExtend(space, AnyBelow(n + 1), Being(k, n + 1, rest + {n}),
                 Completed(k, n, space, rest), Vacating(k, n, n + 1, rest));
  }

  lemma NewestCompletes(k: nat, n: nat, draws: seq<nat>, d: nat, rest: set<nat>)
    requires k <= n && Under(rest, n) && |draws| == DrawCount(k, n) && d <= n
    ensures Holds(k, n + 1, draws + [d], rest + {n})
            <==> IsCompleted(k, n, draws, rest) && d in Evicting(k, n, n + 1, draws, rest)
  {
    KeptAfter(k, n, draws, d);
    FinalDistinct(k, n, draws);
    var kept := Kept(k, n, draws);
    if d < k {
      ReplacedSet(kept, rest, Final(k, n, draws)[d], n);
    } else {
      assert n in rest + {n} && n !in kept;
    }
  }

  lemma ReplacedSet(kept: set<nat>, rest: set<nat>, x: nat, n: nat)
    requires x in kept && Under(kept, n) && Under(rest, n)
    ensures kept - {x} + {n} == rest + {n}
            <==> x !in rest && exists y :: y in Below(n) - rest && kept == rest + {y}
  {
    if kept - {x} + {n} == rest + {n} {
      assert kept - {x} == (kept - {x} + {n}) - {n} == (rest + {n}) - {n} == rest;
      assert kept == rest + {x} && x in Below(n) - rest;
    }
  }

  lemma VacatingCount(k: nat, n: nat, space: set<seq<nat>>, rest: set<nat>)
    requires k <= n
    ensures forall draws :: draws in Completed(k, n, space, rest) ==> |Vacating(k, n, n + 1, rest)(draws)| == 1
  {
    forall draws | draws in Completed(k, n, space, rest) ensures |Vacating(k, n, n + 1, rest)(draws)| == 1 {
      CompletedMember(k, n, space, rest, draws);
      var x :| x in Below(n) - rest && Holds(k, n, draws, rest + {x});
      OneSlotToVacate(k, n, draws, rest, x);
    }
  }

  lemma OneSlotToVacate(k: nat, n: nat, draws: seq<nat>, rest: set<nat>, x: nat)
    requires k <= n && x !in rest && Holds(k, n, draws, rest + {x})
    ensures |Evicting(k, n, n + 1, draws, rest)| == 1
  {
    assert x in Kept(k, n, draws);
    var slot := SlotOf(k, n, draws, x);
    forall d | 0 <= d < k && Final(k, n, draws)[d] !in rest ensures d == slot {
      assert Final(k, n, draws)[d] in Kept(k, n, draws);
    }
    assert Evicting(k, n, n + 1, draws, rest) == {slot};
  }
}
