/** The API gateway's rate limiter. Its comment calls it a token bucket; the code is a sliding-window
    log kept in a Redis sorted set, which every attempt prunes, counts and extends. */
module RateLimiting {

  /** One call for a key. `reached` is false when Redis failed and the limiter let the request pass. */
  datatype Attempt = Attempt(at: int, reached: bool, allowed: bool)

  /** What Redis holds for a key: nothing, or a sorted set of stamps, oldest first, that expires. */
  datatype Slot = Absent | Held(stamps: seq<int>, expiresAt: int)

  /** The stamps after a cutoff. */
  function Recent(stamps: seq<int>, cutoff: int): seq<int> {
    if stamps == [] then []
    else
      var init, last := stamps[..|stamps| - 1], stamps[|stamps| - 1];
      if last > cutoff then Recent(init, cutoff) + [last] else Recent(init, cutoff)
  }

  /** The stamps of the attempts that reached Redis. */
  function Stamps(log: seq<Attempt>): seq<int> {
    if log == [] then []
    else
      var init, last := log[..|log| - 1], log[|log| - 1];
      if last.reached then Stamps(init) + [last.at] else Stamps(init)
  }

  /** The reference decision: count every earlier attempt inside the window, rejected ones included. */
  function Decision(stamps: seq<int>, at: int, limit: int, window: int): bool {
    |Recent(stamps, at - window)| < limit
  }

  /** The stamps never go back, and none is later than the given time. */
  ghost predicate Ascending(stamps: seq<int>, now: int) {
    stamps == [] ||
    var last := stamps[|stamps| - 1];
    last <= now && Ascending(stamps[..|stamps| - 1], last)
  }

  lemma {:induction false} AscendingBounds(stamps: seq<int>, now: int)
    requires Ascending(stamps, now)
    ensures forall i :: 0 <= i < |stamps| ==> stamps[i] <= now
    ensures forall later :: now <= later ==> Ascending(stamps, later)
  {
    if stamps != [] { AscendingBounds(stamps[..|stamps| - 1], stamps[|stamps| - 1]); }
  }

  // ---- the pruned set against the full log -----------------------------------------------

  lemma RecentSnoc(stamps: seq<int>, t: int, cutoff: int)
    ensures Recent(stamps + [t], cutoff) == if t > cutoff then Recent(stamps, cutoff) + [t] else Recent(stamps, cutoff)
  {
    assert (stamps + [t])[..|stamps|] == stamps;
  }

  lemma StampsSnoc(log: seq<Attempt>, a: Attempt)
    ensures Stamps(log + [a]) == if a.reached then Stamps(log) + [a.at] else Stamps(log)
  {
    assert (log + [a])[..|log|] == log;
  }

  /** Pruning twice is pruning once, at the later cutoff. */
  lemma {:induction false} PruneAgain(stamps: seq<int>, first: int, later: int)
    requires first <= later
    ensures Recent(Recent(stamps, first), later) == Recent(stamps, later)
  {
    if stamps != [] {
      var init, last := stamps[..|stamps| - 1], stamps[|stamps| - 1];
      PruneAgain(init, first, later);
      if last > first { RecentSnoc(Recent(init, first), last, later); }
    }
  }

  lemma {:induction false} NothingRecent(stamps: seq<int>, cutoff: int)
    requires Ascending(stamps, cutoff)
    ensures Recent(stamps, cutoff) == []
  {
    if stamps != [] {
      AscendingBounds(stamps[..|stamps| - 1], stamps[|stamps| - 1]);
      NothingRecent(stamps[..|stamps| - 1], cutoff);
    }
  }

  /** What Redis holds after attempts at these times: what the last one left after its pruning. */
  function SlotAfter(stamps: seq<int>, window: int, ttl: int): Slot {
    if stamps == [] then Absent
    else
      var init, last := stamps[..|stamps| - 1], stamps[|stamps| - 1];
      Held(Recent(init, last - window) + [last], last + ttl)
  }

  /** The stamps of a key that Redis still shows at a time. */
  function Visible(slot: Slot, now: int): seq<int> {
    if slot.Held? && now < slot.expiresAt then slot.stamps else []
  }

  lemma PrunedEnough(init: seq<int>, last: int, window: int, now: int)
    requires last <= now
    ensures Recent(Recent(init, last - window) + [last], now - window) == Recent(init + [last], now - window)
  {
    hide Recent;
    var cutoff := now - window;
    PruneAgain(init, last - window, cutoff);
    RecentSnoc(Recent(init, last - window), last, cutoff);
    RecentSnoc(init, last, cutoff);
  }

  /** One more attempt leaves the slot that the longer history calls for. */
  lemma SlotAfterSnoc(stamps: seq<int>, window: int, ttl: int, now: int)
    ensures SlotAfter(stamps + [now], window, ttl) == Held(Recent(stamps, now - window) + [now], now + ttl)
  {
    assert (stamps + [now])[..|stamps|] == stamps;
  }

  lemma ExpiredEnough(init: seq<int>, last: int, window: int, ttl: int, now: int)
    requires Ascending(init, last) && last + ttl <= now && window <= ttl
    ensures Recent(init + [last], now - window) == []
  {
    AscendingBounds(init, last);
    NothingRecent(init, now - window);
    RecentSnoc(init, last, now - window);
  }

  /** An expired or pruned set has lost nothing that the window still covers. */
  lemma VisibleEnough(stamps: seq<int>, window: int, ttl: int, now: int)
    requires Ascending(stamps, now) && window <= ttl
    ensures Recent(Visible(SlotAfter(stamps, window, ttl), now), now - window) == Recent(stamps, now - window)
  {
    if stamps != [] {
      var init, last := stamps[..|stamps| - 1], stamps[|stamps| - 1];
      assert stamps == init + [last];
      SlotAfterSnoc(init, window, ttl, last);
      if now < last + ttl {
        PrunedEnough(init, last, window, now);
      } else {
        ExpiredEnough(init, last, window, ttl, now);
      }
    }
  }

  lemma SnocAscending(stamps: seq<int>, now: int)
    requires Ascending(stamps, now)
    ensures Ascending(stamps + [now], now)
  {
    assert (stamps + [now])[..|stamps|] == stamps;
  }

  // ---- the limiter -----------------------------------------------------------------------

  function SlotOf(store: map<string, Slot>, key: string): Slot {
    if key in store then store[key] else Absent
  }

  ghost function LogOf(logs: map<string, seq<Attempt>>, key: string): seq<Attempt> {
    if key in logs then logs[key] else []
  }

  /** The attempts of a log that reached Redis after a cutoff, by position. */
  ghost function AttemptsAfter(log: seq<Attempt>, cutoff: int): set<nat> {
    set i: nat | i < |log| && log[i].reached && log[i].at > cutoff
  }

  /** The recent stamps are as many as the recent attempts, let through or not. */
  lemma {:induction false} RecentCounts(log: seq<Attempt>, cutoff: int)
    ensures |Recent(Stamps(log), cutoff)| == |AttemptsAfter(log, cutoff)|
  {
    if log == [] {
      assert AttemptsAfter(log, cutoff) == {};
    } else {
      var init, last := log[..|log| - 1], log[|log| - 1];
      assert log == init + [last];
      RecentCounts(init, cutoff);
      RecentStampsSnoc(init, last, cutoff);
      AttemptsSnoc(init, last, cutoff);
    }
  }

  lemma RecentStampsSnoc(log: seq<Attempt>, a: Attempt, cutoff: int)
    ensures |Recent(Stamps(log + [a]), cutoff)| == |Recent(Stamps(log), cutoff)| + if a.reached && a.at > cutoff then 1 else 0
  {
    hide Recent, Stamps;
    StampsSnoc(log, a);
    RecentSnoc(Stamps(log), a.at, cutoff);
  }

  lemma AttemptsSnoc(log: seq<Attempt>, a: Attempt, cutoff: int)
    ensures |AttemptsAfter(log + [a], cutoff)| == |AttemptsAfter(log, cutoff)| + if a.reached && a.at > cutoff then 1 else 0
  {
    var before, after := AttemptsAfter(log, cutoff), AttemptsAfter(log + [a], cutoff);
    var n: nat := |log|;
    forall i: nat ensures i in after <==> i in before || (i == n && a.reached && a.at > cutoff) {
      if i < n { assert (log + [a])[i] == log[i]; }
    }
    assert after == if a.reached && a.at > cutoff then before + {n} else before;
  }

  ghost predicate Follows(slot: Slot, stamps: seq<int>, window: int, ttl: int, now: int) {
    slot == SlotAfter(stamps, window, ttl) && Ascending(stamps, now)
  }

  ghost predicate AllFollow(store: map<string, Slot>, logs: map<string, seq<Attempt>>, window: int, ttl: int, now: int) {
    forall key :: Follows(SlotOf(store, key), Stamps(LogOf(logs, key)), window, ttl, now)
  }

  lemma OneKeyChanged(store: map<string, Slot>, store': map<string, Slot>, logs: map<string, seq<Attempt>>, key: string,
                      log: seq<Attempt>, window: int, ttl: int, before: int, now: int)
    requires AllFollow(store, logs, window, ttl, before) && before <= now
    requires forall other :: other != key ==> SlotOf(store', other) == SlotOf(store, other)
    requires Follows(SlotOf(store', key), Stamps(log), window, ttl, now)
    ensures AllFollow(store', logs[key := log], window, ttl, now)
  {
    forall other: string | other != key
      ensures Follows(SlotOf(store', other), Stamps(LogOf(logs[key := log], other)), window, ttl, now)
    {
      assert LogOf(logs[key := log], other) == LogOf(logs, other);
      assert Follows(SlotOf(store, other), Stamps(LogOf(logs, other)), window, ttl, before);
      AscendingBounds(Stamps(LogOf(logs, other)), before);
    }
  }

  lemma SlotsAfter(store: map<string, Slot>, key: string, slot: Slot)
    ensures SlotOf(store[key := slot], key) == slot
    ensures forall other :: other != key ==> SlotOf(store[key := slot], other) == SlotOf(store, other)
  {
  }

  lemma OneKey(store: map<string, Slot>, logs: map<string, seq<Attempt>>, key: string, window: int, ttl: int, now: int)
    requires AllFollow(store, logs, window, ttl, now)
    ensures Follows(SlotOf(store, key), Stamps(LogOf(logs, key)), window, ttl, now)
  {
  }

  /** An attempt that reaches Redis is judged as by the full history and leaves the slot that the
      longer history calls for. */
  lemma AttemptFollows(slot: Slot, log: seq<Attempt>, window: int, ttl: int, before: int, now: int, kept: seq<int>,
                       allowed: bool)
    requires Follows(slot, Stamps(log), window, ttl, before) && before <= now && window <= ttl
    requires kept == Recent(Visible(slot, now), now - window)
    ensures kept == Recent(Stamps(log), now - window)
    ensures Follows(Held(kept + [now], now + ttl), Stamps(log + [Attempt(now, true, allowed)]), window, ttl, now)
  {
    var stamps := Stamps(log);
    AscendingBounds(stamps, before);
    VisibleEnough(stamps, window, ttl, now);
    StampsSnoc(log, Attempt(now, true, allowed));
    SlotAfterSnoc(stamps, window, ttl, now);
    SnocAscending(stamps, now);
  }

  lemma FailedFollows(slot: Slot, log: seq<Attempt>, window: int, ttl: int, before: int, now: int)
    requires Follows(slot, Stamps(log), window, ttl, before) && before <= now
    ensures Follows(slot, Stamps(log + [Attempt(now, false, true)]), window, ttl, now)
  {
    AscendingBounds(Stamps(log), before);
    StampsSnoc(log, Attempt(now, false, true));
  }

  /** The attempts of a log whose decisions are the limiter's. */
  ghost predicate Judged(log: seq<Attempt>, limit: int, window: int) {
    forall i :: 0 <= i < |log| ==>
      (log[i].allowed <==> !log[i].reached || Decision(Stamps(log[..i]), log[i].at, limit, window))
  }

  lemma JudgedSnoc(log: seq<Attempt>, a: Attempt, limit: int, window: int)
    requires Judged(log, limit, window)
    requires a.allowed <==> !a.reached || Decision(Stamps(log), a.at, limit, window)
    ensures Judged(log + [a], limit, window)
  {
    assert (log + [a])[..|log|] == log;
    assert forall i :: 0 <= i < |log| ==> (log + [a])[..i] == log[..i];
  }

  ghost predicate AllJudged(logs: map<string, seq<Attempt>>, limit: int, window: int) {
    forall key :: Judged(LogOf(logs, key), limit, window)
  }

  lemma OneLogJudged(logs: map<string, seq<Attempt>>, key: string, a: Attempt, limit: int, window: int)
    requires AllJudged(logs, limit, window)
    requires a.allowed <==> !a.reached || Decision(Stamps(LogOf(logs, key)), a.at, limit, window)
    ensures AllJudged(logs[key := LogOf(logs, key) + [a]], limit, window)
  {
    JudgedSnoc(LogOf(logs, key), a, limit, window);
    var logs' := logs[key := LogOf(logs, key) + [a]];
    forall other: string | other != key ensures Judged(LogOf(logs', other), limit, window) {
      assert LogOf(logs', other) == LogOf(logs, other);
    }
  }

  /** The limiter of one route: every request is judged by the same limit and window. `ttl` is the
      expiry Redis applies. */
  class RateLimiter {
    const limit: int
    const window: int
    const ttl: int
    var store: map<string, Slot>
    ghost var logs: map<string, seq<Attempt>>
    ghost var clock: int

    ghost predicate Valid()
      reads this
    {
      window <= ttl && AllFollow(store, logs, window, ttl, clock) && AllJudged(logs, limit, window)
    }

    constructor (limit: int, window: int, ttl: int)
      requires window <= ttl
      ensures Valid() && logs == map[] && this.limit == limit && this.window == window && this.ttl == ttl
    {
      this.limit, this.window, this.ttl, store, logs := limit, window, ttl, map[], map[];
    }

    /** The pipeline for one key: prune, count, add, renew the expiry. */
    static method Touch(slot: Slot, limit: int, window: int, ttl: int, now: int, ghost log: seq<Attempt>, ghost before: int)
      returns (ok: bool, after: Slot)
      requires Follows(slot, Stamps(log), window, ttl, before) && before <= now && window <= ttl
      ensures ok <==> Decision(Stamps(log), now, limit, window)
      ensures Follows(after, Stamps(log + [Attempt(now, true, ok)]), window, ttl, now)
      ensures after == Held(Recent(Stamps(log), now - window) + [now], now + ttl)
    {
      var kept := Recent(Visible(slot, now), now - window);
      ok := |kept| < limit;
      after := Held(kept + [now], now + ttl);
      AttemptFollows(slot, log, window, ttl, before, now, kept, ok);
    }

    /** An attempt that reaches Redis is judged as by the full log of its key; otherwise it passes and
        leaves no trace. Other keys play no part. */
    method Allow(key: string, now: int, reached: bool) returns (ok: bool)
      requires Valid() && clock <= now
      modifies this`store, this`logs, this`clock
      ensures Valid() && clock == now
      ensures ok <==> !reached || |AttemptsAfter(LogOf(old(logs), key), now - window)| < limit
      ensures ok <==> !reached || Decision(Stamps(LogOf(old(logs), key)), now, limit, window)
      ensures reached ==>
                && key in store && store[key].Held? && store[key].expiresAt == now + ttl
                && store[key].stamps != [] && store[key].stamps[|store[key].stamps| - 1] == now
      ensures logs == old(logs)[key := LogOf(old(logs), key) + [Attempt(now, reached, ok)]]
      ensures store == if reached then old(store)[key := SlotOf(store, key)] else old(store)
    {
      ghost var log, earlier := LogOf(logs, key), store;
      hide Recent, Stamps, AttemptsAfter, Follows, SlotAfter, Ascending, AllFollow, Judged, AllJudged;
      RecentCounts(log, now - window);
      OneKey(store, logs, key, window, ttl, clock);
      if reached {
        var slot;
        ok, slot := Touch(SlotOf(store, key), limit, window, ttl, now, log, clock);
        store := store[key := slot];
        SlotsAfter(earlier, key, slot);
      } else {
        ok := true;
        FailedFollows(SlotOf(store, key), log, window, ttl, clock, now);
      }
      OneKeyChanged(earlier, store, logs, key, log + [Attempt(now, reached, ok)], window, ttl, clock, now);
      OneLogJudged(logs, key, Attempt(now, reached, ok), limit, window);
      logs, clock := logs[key := log + [Attempt(now, reached, ok)]], now;
    }

    /** Whatever the run so far, in any window no key had more than `limit` requests let through by a
        decision, and beyond those only the ones that came while Redis failed. */
    lemma NeverOverLimit(key: string, from: int)
      requires Valid()
      ensures AllowedIn(LogOf(logs, key), from, from + window) <= if limit > 0 then limit else 0
      ensures PassedIn(LogOf(logs, key), from, from + window)
              <= (if limit > 0 then limit else 0) + FailedIn(LogOf(logs, key), from, from + window)
    {
      WindowBound(LogOf(logs, key), limit, window, from);
      PassedSplit(LogOf(logs, key), from, from + window);
    }
  }

  // ---- what the decisions amount to ------------------------------------------------------

  /** The requests let through by a decision, at times in [from, to). */
  function AllowedIn(log: seq<Attempt>, from: int, to: int): nat {
    if log == [] then 0
    else
      var last := log[|log| - 1];
      AllowedIn(log[..|log| - 1], from, to) + if last.reached && last.allowed && from <= last.at < to then 1 else 0
  }

  /** All requests let through at times in [from, to), and those let through because Redis failed. */
  function PassedIn(log: seq<Attempt>, from: int, to: int): nat {
    if log == [] then 0
    else
      var last := log[|log| - 1];
      PassedIn(log[..|log| - 1], from, to) + if last.allowed && from <= last.at < to then 1 else 0
  }

  function FailedIn(log: seq<Attempt>, from: int, to: int): nat {
    if log == [] then 0
    else
      var last := log[|log| - 1];
      FailedIn(log[..|log| - 1], from, to) + if !last.reached && from <= last.at < to then 1 else 0
  }

  lemma {:induction false} PassedSplit(log: seq<Attempt>, from: int, to: int)
    ensures PassedIn(log, from, to) <= AllowedIn(log, from, to) + FailedIn(log, from, to)
  {
    if log != [] { PassedSplit(log[..|log| - 1], from, to); }
  }

  lemma {:induction false} AllowedAreRecent(log: seq<Attempt>, from: int, to: int, cutoff: int)
    requires cutoff < from
    ensures AllowedIn(log, from, to) <= |Recent(Stamps(log), cutoff)|
  {
    if log != [] {
      var init, last := log[..|log| - 1], log[|log| - 1];
      AllowedAreRecent(init, from, to, cutoff);
      assert log == init + [last];
      StampsSnoc(init, last);
      if last.reached { RecentSnoc(Stamps(init), last.at, cutoff); }
    }
  }

  /** Every window of the given length, wherever it starts, lets at most `limit` requests through. */
  lemma {:induction false} WindowBound(log: seq<Attempt>, limit: int, window: int, from: int)
    requires Judged(log, limit, window)
    ensures AllowedIn(log, from, from + window) <= if limit > 0 then limit else 0
  {
    if log != [] {
      var init, last := log[..|log| - 1], log[|log| - 1];
      forall i | 0 <= i < |init| ensures init[..i] == log[..i] {}
      WindowBound(init, limit, window, from);
      if last.reached && last.allowed && from <= last.at < from + window {
        AllowedAreRecent(init, from, from + window, last.at - window);
      }
    }
  }

  /** For a key whose attempts all reach Redis: how many stamps are recent, by position. */
  lemma {:induction false} RecentByPosition(stamps: seq<int>, now: int, cutoff: int, limit: nat)
    requires Ascending(stamps, now) && limit > 0
    ensures |Recent(stamps, cutoff)| <= |stamps|
    ensures |Recent(stamps, cutoff)| < limit <==> |stamps| < limit || stamps[|stamps| - limit] <= cutoff
  {
    if stamps != [] {
      var init, last := stamps[..|stamps| - 1], stamps[|stamps| - 1];
      if last <= cutoff {
        assert Ascending(stamps, cutoff);
        AscendingBounds(stamps, cutoff);
        NothingRecent(stamps, cutoff);
      } else if limit > 1 {
        RecentByPosition(init, last, cutoff, limit - 1);
      } else {
        RecentByPosition(init, last, cutoff, 1);
      }
    }
  }

  /** An attempt passes exactly when the attempt `limit` places before it, passed or not, is out of
      the window. A bucket of tokens would look at the requests that passed. */
  lemma AllowedIff(stamps: seq<int>, at: int, limit: nat, window: int)
    requires Ascending(stamps, at) && limit > 0
    ensures Decision(stamps, at, limit, window) <==> |stamps| < limit || stamps[|stamps| - limit] <= at - window
  {
    RecentByPosition(stamps, at, at - window, limit);
  }

  // ---- the expiry ------------------------------------------------------------------------

  /** The decision taken from what Redis shows. */
  function StoreDecision(stamps: seq<int>, at: int, limit: int, window: int, ttl: int): bool {
    |Recent(Visible(SlotAfter(stamps, window, ttl), at), at - window)| < limit
  }

  /** Letting keys expire never changes a decision exactly when the expiry covers the window. */
  lemma ExpiryHarmlessIff(window: int, ttl: int)
    requires window > 0
    ensures (forall stamps: seq<int>, at: int, limit: int :: Ascending(stamps, at) ==>
               (StoreDecision(stamps, at, limit, window, ttl) <==> Decision(stamps, at, limit, window)))
            <==> window <= ttl
  {
    if window <= ttl {
      forall stamps: seq<int>, at: int, limit: int | Ascending(stamps, at)
        ensures StoreDecision(stamps, at, limit, window, ttl) <==> Decision(stamps, at, limit, window)
      {
        VisibleEnough(stamps, window, ttl, at);
      }
    } else {
      var at := if ttl > 0 then ttl else 0;
      assert [0][..0] == [];
      assert StoreDecision([0], at, 1, window, ttl) && !Decision([0], at, 1, window);
      assert Ascending([0], at);
    }
  }
}
