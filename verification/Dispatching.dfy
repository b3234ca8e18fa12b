/** How a dispatch splits the bots of a session and hands one command to every worker. */
module Dispatching {
  import opened Orchestration
  import opened Sets

  // ---- the shares ------------------------------------------------------------------------

  /** The bots of the first k of n workers. */
  function SumShares(botCount: int, n: int, k: nat): int
    requires n > 0
  {
    if k == 0 then 0 else SumShares(botCount, n, k - 1) + Share(botCount, n, k - 1)
  }

  lemma {:induction false} SumSharesClosed(botCount: int, n: int, k: nat)
    requires n > 0
    ensures var r := Remainder(botCount, n);
            SumShares(botCount, n, k) == k * Quotient(botCount, n) + if r <= 0 then 0 else if k <= r then k else r
  {
    if k > 0 {
      SumSharesClosed(botCount, n, k - 1);
      assert k * Quotient(botCount, n) == (k - 1) * Quotient(botCount, n) + Quotient(botCount, n);
    }
  }

  lemma RemainderRange(a: int, n: int)
    requires n > 0
    ensures a >= 0 ==> 0 <= Remainder(a, n) < n && Quotient(a, n) >= 0
    ensures a < 0 ==> -n < Remainder(a, n) <= 0 && Quotient(a, n) <= 0
    ensures a == n * Quotient(a, n) + Remainder(a, n)
  {
    var size := if a >= 0 then a else -a;
    var q, r := Divided(size, n);
    assert Quotient(a, n) == if a >= 0 then q else -q;
    SignOfProduct(q, n);
    assert Remainder(a, n) == if a >= 0 then r else -r;
  }

  lemma Divided(a: nat, n: int) returns (q: int, r: int)
    requires n > 0
    ensures q == a / n && a == q * n + r && 0 <= q && 0 <= r < n
  {
    q, r := a / n, a % n;
  }

  lemma SignOfProduct(q: int, n: int)
    ensures (-q) * n == -(q * n) && n * (-q) == -(q * n) && n * q == q * n
  {
  }

  /** The shares add up to the bot count exactly when truncation leaves no negative remainder. */
  lemma SharesAddUpIff(botCount: int, n: int)
    requires n > 0
    ensures SumShares(botCount, n, n) == botCount <==> botCount >= 0 || Remainder(botCount, n) == 0
  {
    SumSharesClosed(botCount, n, n);
    RemainderRange(botCount, n);
  }

  /** No two workers differ by more than one bot. */
  lemma SharesEven(botCount: int, n: int, i: int, j: int)
    requires n > 0 && i <= j
    ensures Share(botCount, n, j) <= Share(botCount, n, i) <= Share(botCount, n, j) + 1
  {
  }

  // ---- end to end: the worker's default --------------------------------------------------

  /** How many bots a worker spawns for the share it is sent: a share of 0 becomes 8. */
  function BotsSpawned(share: int): nat {
    var count := if share == 0 then 8 else share;
    if count < 0 then 0 else count
  }

  function SumSpawned(botCount: int, n: int, k: nat): nat
    requires n > 0
  {
    if k == 0 then 0 else SumSpawned(botCount, n, k - 1) + BotsSpawned(Share(botCount, n, k - 1))
  }

  lemma {:induction false} SpawnedAtLeastShares(botCount: int, n: int, k: nat)
    requires n > 0
    ensures SumSpawned(botCount, n, k) >= SumShares(botCount, n, k)
    ensures (forall i :: 0 <= i < k ==> Share(botCount, n, i) > 0) ==> SumSpawned(botCount, n, k) == SumShares(botCount, n, k)
    ensures (exists i :: 0 <= i < k && Share(botCount, n, i) == 0) ==> SumSpawned(botCount, n, k) > SumShares(botCount, n, k)
  {
    if k > 0 { SpawnedAtLeastShares(botCount, n, k - 1); }
  }

  /** If every worker receives its command once, the bots spawned are as many as asked for exactly
      when there are at least as many bots as workers. */
  lemma SpawnedExactlyIff(botCount: int, n: int)
    requires n > 0
    ensures SumSpawned(botCount, n, n) == botCount <==> botCount >= n
  {
    SharesAddUpIff(botCount, n);
    SpawnedAtLeastShares(botCount, n, n);
    RemainderRange(botCount, n);
    ProductBounds(n, Quotient(botCount, n));
    if 0 <= botCount < n {
      assert Share(botCount, n, n - 1) == 0;
    }
  }

  lemma ProductBounds(n: int, q: int)
    requires n > 0
    ensures q <= 0 ==> n * q <= 0
    ensures q >= 1 ==> n * q >= n
  {
  }

  // ---- one command for every worker ------------------------------------------------------

  function PublishedTo(published: seq<(string, Cmd)>, topic: string): seq<Cmd> {
    if published == [] then []
    else
      var last := published[|published| - 1];
      PublishedTo(published[..|published| - 1], topic) + if last.0 == topic then [last.1] else []
  }

  lemma PublishedToSnoc(published: seq<(string, Cmd)>, topic: string, cmd: Cmd, to: string)
    ensures PublishedTo(published + [(topic, cmd)], to) == PublishedTo(published, to) + if topic == to then [cmd] else []
  {
    assert (published + [(topic, cmd)])[..|published|] == published;
  }

  lemma {:induction false} IndexInUnique(order: seq<string>, i: nat)
    requires i < |order| && forall j, k :: 0 <= j < k < |order| ==> order[j] != order[k]
    ensures IndexIn(order, order[i]) == i
  {
    if i > 0 { IndexInUnique(order[1..], i - 1); }
  }

  lemma TopicsDiffer(a: string, b: string)
    requires "worker:" + a == "worker:" + b
    ensures a == b
  {
    assert a == ("worker:" + a)[7..] && b == ("worker:" + b)[7..];
  }

  /** Every place of the order is the first place of its worker. */
  ghost predicate NoRepeats(order: seq<string>) {
    forall i :: 0 <= i < |order| ==> order[i] in order && IndexIn(order, order[i]) == i
  }

  lemma OrderNeverRepeats(order: seq<string>, ids: set<string>)
    requires IsOrderOf(order, ids)
    ensures NoRepeats(order)
  {
    forall i | 0 <= i < |order| ensures order[i] in order && IndexIn(order, order[i]) == i {
      IndexInUnique(order, i);
    }
  }

  /** What worker `id` is published on its own topic among the first k of the order. */
  function OverflowFor(chans: map<string, seq<Cmd>>, d: Dispatch, order: seq<string>, k: nat, id: string): seq<Cmd> {
    if id in order && IndexIn(order, id) < k && id in chans && |chans[id]| >= CHANNEL_CAPACITY
    then [CmdFor(d, order, IndexIn(order, id))] else []
  }

  lemma {:induction false} OverflowTo(chans: map<string, seq<Cmd>>, d: Dispatch, order: seq<string>, k: nat, id: string)
    requires k <= |order| && NoRepeats(order)
    ensures PublishedTo(Overflow(chans, d, order, k), "worker:" + id) == OverflowFor(chans, d, order, k, id)
  {
    hide NoRepeats, IndexIn;
    if k > 0 {
      OverflowTo(chans, d, order, k - 1, id);
      OverflowNext(chans, d, order, k - 1, id);
    }
  }

  lemma OverflowNext(chans: map<string, seq<Cmd>>, d: Dispatch, order: seq<string>, k: nat, id: string)
    requires k < |order| && NoRepeats(order)
    requires PublishedTo(Overflow(chans, d, order, k), "worker:" + id) == OverflowFor(chans, d, order, k, id)
    ensures PublishedTo(Overflow(chans, d, order, k + 1), "worker:" + id) == OverflowFor(chans, d, order, k + 1, id)
  {
    hide *;
    OverflowStep(chans, d, order, k, id);
    OverflowForStep(chans, d, order, k, id);
  }

  lemma OverflowForStep(chans: map<string, seq<Cmd>>, d: Dispatch, order: seq<string>, k: nat, id: string)
    requires k < |order| && NoRepeats(order)
    ensures OverflowFor(chans, d, order, k + 1, id)
            == OverflowFor(chans, d, order, k, id)
               + if order[k] == id && id in chans && |chans[id]| >= CHANNEL_CAPACITY then [CmdFor(d, order, k)] else []
  {
    hide NoRepeats;
    if order[k] == id {
      PlaceIsIndex(order, k);
    }
  }

  lemma PlaceIsIndex(order: seq<string>, k: nat)
    requires k < |order| && NoRepeats(order)
    ensures order[k] in order && IndexIn(order, order[k]) == k
  {
  }

  lemma OverflowStep(chans: map<string, seq<Cmd>>, d: Dispatch, order: seq<string>, k: nat, id: string)
    requires k < |order|
    ensures PublishedTo(Overflow(chans, d, order, k + 1), "worker:" + id)
            == PublishedTo(Overflow(chans, d, order, k), "worker:" + id)
               + if order[k] == id && id in chans && |chans[id]| >= CHANNEL_CAPACITY then [CmdFor(d, order, k)] else []
  {
    var last, before := order[k], Overflow(chans, d, order, k);
    if last in chans && |chans[last]| >= CHANNEL_CAPACITY {
      PublishedToSnoc(before, "worker:" + last, CmdFor(d, order, k), "worker:" + id);
      if "worker:" + last == "worker:" + id { TopicsDiffer(last, id); }
    } else {
      assert Overflow(chans, d, order, k + 1) == before;
    }
  }

  /** Every poll also listens to the topic "worker:broadcast", which is the topic of a worker with this
      name. */
  const BROADCAST := "broadcast"

  /** Everything that one dispatch addresses to a worker: through its channel, on its own topic and on
      the common one. */
  function IssuedTo(s: State, d: Dispatch, order: seq<string>, id: string): seq<Cmd>
    requires id in s.cmdChans
  {
    var overflow := Overflow(s.cmdChans, d, order, |order|);
    Served(s.cmdChans, d, order, |order|)[id][|s.cmdChans[id]|..]
    + PublishedTo(overflow, "worker:" + id)
    + if id == BROADCAST then [] else PublishedTo(overflow, "worker:" + BROADCAST)
  }

  /** A worker is registered under the name of the common topic, and its channel is full. */
  predicate BroadcastSpills(chans: map<string, seq<Cmd>>) {
    BROADCAST in chans && |chans[BROADCAST]| >= CHANNEL_CAPACITY
  }

  lemma IssuedParts(s: State, d: Dispatch, order: seq<string>, id: string)
    requires id in s.cmdChans && id in order && NoRepeats(order)
    ensures Served(s.cmdChans, d, order, |order|)[id][|s.cmdChans[id]|..]
            + PublishedTo(Overflow(s.cmdChans, d, order, |order|), "worker:" + id)
            == [CmdFor(d, order, IndexIn(order, id))]
  {
    OverflowTo(s.cmdChans, d, order, |order|, id);
    var cmd := CmdFor(d, order, IndexIn(order, id));
    if |s.cmdChans[id]| < CHANNEL_CAPACITY {
      assert (s.cmdChans[id] + [cmd])[|s.cmdChans[id]|..] == [cmd];
    } else {
      assert s.cmdChans[id][|s.cmdChans[id]|..] == [];
    }
  }

  /** In every state the invariant allows, a dispatch issues each registered worker one command with
      that worker's share, and, if a worker named like the common topic has a full channel, every other
      worker that one's command as well. */
  lemma StartsForEachWorker(s: State, d: Dispatch, order: seq<string>, id: string)
    requires Invariant(s) && IsOrderOf(order, s.workers.Keys) && id in s.workers
    ensures |order| == |s.workers| && (BroadcastSpills(s.cmdChans) ==> BROADCAST in order)
    ensures IssuedTo(s, d, order, id)
            == [Cmd("START", d.sessionId, d.targetUrl, Share(d.botCount, |s.workers|, IndexIn(order, id)), d.endpointType)]
               + if BroadcastSpills(s.cmdChans) && id != BROADCAST
                 then [Cmd("START", d.sessionId, d.targetUrl, Share(d.botCount, |s.workers|, IndexIn(order, BROADCAST)),
                           d.endpointType)]
                 else []
  {
    OrderNeverRepeats(order, s.workers.Keys);
    OrderCoversWorkers(s, order);
    IssuedParts(s, d, order, id);
    OverflowTo(s.cmdChans, d, order, |order|, BROADCAST);
  }

  /** A dispatch issues a registered worker exactly one START if and only if the worker has the name of
      the common topic itself or no worker of that name has a full channel. */
  lemma OneStartForEachWorkerIff(s: State, d: Dispatch, order: seq<string>, id: string)
    requires Invariant(s) && IsOrderOf(order, s.workers.Keys) && id in s.workers
    ensures |IssuedTo(s, d, order, id)| == 1
            <==> id == "broadcast" || "broadcast" !in s.cmdChans || |s.cmdChans["broadcast"]| < 64
  {
    StartsForEachWorker(s, d, order, id);
  }

  // ---- a state in which workers are issued two commands ----------------------------------

  /** Stopping a known session again and again fills a channel that nobody polls. */
  lemma {:induction false} StopsFill(s: State, session: string, w: string, n: nat) returns (run: seq<Timed>)
    requires session in s.sessions && w in s.cmdChans && |s.cmdChans[w]| + n <= CHANNEL_CAPACITY
    ensures IsRun(s, run) && After(s, run).workers == s.workers && After(s, run).cmdChans.Keys == s.cmdChans.Keys
    ensures |After(s, run).cmdChans[w]| == |s.cmdChans[w]| + n
    decreases n
  {
    if n == 0 {
      run := [];
    } else {
      var stop := (Stop(session), s.now);
      var s' := Step(s, stop.0, stop.1);
      var rest := StopsFill(s', session, w, n - 1);
      run := [stop] + rest;
      assert run[1..] == rest;
    }
  }

  /** A reachable state in which any dispatch issues the worker "w" two commands. */
  lemma SecondStart() returns (run: seq<Timed>)
    ensures IsRun(INITIAL, run) && "w" in After(INITIAL, run).workers
    ensures forall d, order :: IsOrderOf(order, After(INITIAL, run).workers.Keys) && "w" in After(INITIAL, run).cmdChans ==>
              |IssuedTo(After(INITIAL, run), d, order, "w")| == 2
  {
    var start := (Start(NewSession("s", "sub", "url", "ws", 1, 1, 0), true), 0);
    var first, second := (Register(BROADCAST), 0), (Register("w"), 0);
    var s1 := Step(INITIAL, start.0, 0);
    var s2 := Step(s1, first.0, 0);
    var s3 := Step(s2, second.0, 0);
    var rest := StopsFill(s3, "s", BROADCAST, CHANNEL_CAPACITY);
    var third := [second] + rest;
    var later := [first] + third;
    run := [start] + later;
    assert third[1..] == rest && later[1..] == third && run[1..] == later;
    assert After(s2, third) == After(s3, rest) && After(s1, later) == After(s2, third);
    var end := After(INITIAL, run);
    assert end == After(s1, later) && "w" in end.workers;
    InitialInvariant();
    RunsKeepInvariant(INITIAL, run);
    forall d, order | IsOrderOf(order, end.workers.Keys) ensures |IssuedTo(end, d, order, "w")| == 2 {
      StartsForEachWorker(end, d, order, "w");
    }
  }

  // ---- the bots spawned ------------------------------------------------------------------

  lemma {:induction false} OrderSize(order: seq<string>, ids: set<string>)
    requires IsOrderOf(order, ids)
    ensures |order| == |ids|
  {
    if order != [] {
      var init, last := order[..|order| - 1], order[|order| - 1];
      assert order == init + [last];
      forall id ensures id in init <==> id in ids - {last} {
        if id in init { var i :| 0 <= i < |init| && init[i] == id; assert order[i] == id; }
      }
      OrderSize(init, ids - {last});
    } else {
      assert ids == {};
    }
  }

  function SpawnedFor(cmds: seq<Cmd>): nat {
    if cmds == [] then 0 else SpawnedFor(cmds[1..]) + BotsSpawned(cmds[0].botCount)
  }

  /** What one dispatch addresses to each worker of the order. */
  function Issued(s: State, d: Dispatch, order: seq<string>): (issued: seq<seq<Cmd>>)
    requires forall i :: 0 <= i < |order| ==> order[i] in s.cmdChans
    ensures |issued| == |order| && forall i :: 0 <= i < |order| ==> issued[i] == IssuedTo(s, d, order, order[i])
  {
    seq(|order|, i requires 0 <= i < |order| => IssuedTo(s, d, order, order[i]))
  }

  /** The bots that the first k workers spawn for it. */
  function SumIssued(issued: seq<seq<Cmd>>, k: nat): nat
    requires k <= |issued|
  {
    if k == 0 then 0 else SumIssued(issued, k - 1) + SpawnedFor(issued[k - 1])
  }

  /** What every worker but the one named like the common topic spawns on top of its share. */
  function ExtraFor(s: State, d: Dispatch, order: seq<string>): nat
    requires order != [] && (BroadcastSpills(s.cmdChans) ==> BROADCAST in order)
  {
    if BroadcastSpills(s.cmdChans) then BotsSpawned(Share(d.botCount, |order|, IndexIn(order, BROADCAST))) else 0
  }

  lemma OneWorkerSpawns(s: State, d: Dispatch, order: seq<string>, i: nat)
    requires Invariant(s) && IsOrderOf(order, s.workers.Keys) && i < |order|
    ensures order[i] in s.cmdChans && (BroadcastSpills(s.cmdChans) ==> BROADCAST in order)
    ensures SpawnedFor(IssuedTo(s, d, order, order[i]))
            == BotsSpawned(Share(d.botCount, |order|, i)) + if order[i] == BROADCAST then 0 else ExtraFor(s, d, order)
  {
    assert order[i] in order;
    OrderNeverRepeats(order, s.workers.Keys);
    StartsForEachWorker(s, d, order, order[i]);
    SpawnedForTwo(StartCmd(d, Share(d.botCount, |order|, i)), if BroadcastSpills(s.cmdChans) && order[i] != BROADCAST
                  then [StartCmd(d, Share(d.botCount, |order|, IndexIn(order, BROADCAST)))] else []);
  }

  lemma SpawnedForTwo(cmd: Cmd, more: seq<Cmd>)
    requires |more| <= 1
    ensures SpawnedFor([cmd] + more) == BotsSpawned(cmd.botCount) + if more == [] then 0 else BotsSpawned(more[0].botCount)
  {
    assert ([cmd] + more)[1..] == more;
    if more != [] { assert more[1..] == []; }
  }

  lemma {:induction false} IssuedSpawns(issued: seq<seq<Cmd>>, order: seq<string>, botCount: int, extra: nat, n: nat, k: nat)
    requires k <= |issued| == |order| && n > 0
    requires forall i :: 0 <= i < |issued| ==>
               SpawnedFor(issued[i]) == BotsSpawned(Share(botCount, n, i)) + if order[i] == BROADCAST then 0 else extra
    ensures SumIssued(issued, k) >= SumSpawned(botCount, n, k)
    ensures SumIssued(issued, k) == SumSpawned(botCount, n, k)
            <==> extra == 0 || forall i :: 0 <= i < k ==> order[i] == BROADCAST
  {
    if k > 0 { IssuedSpawns(issued, order, botCount, extra, n, k - 1); }
  }

  lemma OrderCoversWorkers(s: State, order: seq<string>)
    requires IsOrderOf(order, s.workers.Keys)
    ensures |order| == |s.workers|
  {
    OrderSize(order, s.workers.Keys);
    assert |s.workers| == |s.workers.Keys|;
  }

  lemma SpawnedNeverFewer(botCount: int, n: int)
    requires n > 0
    ensures SumSpawned(botCount, n, n) >= botCount
  {
    SharesAddUpIff(botCount, n);
    SpawnedAtLeastShares(botCount, n, n);
  }

  lemma SumOfIssued(s: State, d: Dispatch, order: seq<string>)
    requires Invariant(s) && IsOrderOf(order, s.workers.Keys) && order != []
    ensures (forall i :: 0 <= i < |order| ==> order[i] in s.cmdChans) && (BroadcastSpills(s.cmdChans) ==> BROADCAST in order)
    ensures SumIssued(Issued(s, d, order), |order|) >= SumSpawned(d.botCount, |order|, |order|)
    ensures SumIssued(Issued(s, d, order), |order|) == SumSpawned(d.botCount, |order|, |order|)
            <==> ExtraFor(s, d, order) == 0 || forall i :: 0 <= i < |order| ==> order[i] == BROADCAST
  {
    forall i | 0 <= i < |order| ensures order[i] in s.cmdChans {
      OneWorkerSpawns(s, d, order, i);
    }
    OneWorkerSpawns(s, d, order, 0);
    var issued, extra := Issued(s, d, order), ExtraFor(s, d, order);
    forall i | 0 <= i < |issued|
      ensures SpawnedFor(issued[i]) == BotsSpawned(Share(d.botCount, |order|, i)) + if order[i] == BROADCAST then 0 else extra
    {
      OneWorkerSpawns(s, d, order, i);
    }
    IssuedSpawns(issued, order, d.botCount, extra, |order|, |order|);
  }

  /** With at least as many bots as workers a spilled command brings extra bots, unless the worker named
      like the common topic is alone. */
  lemma ExtraIff(s: State, d: Dispatch, order: seq<string>)
    requires IsOrderOf(order, s.workers.Keys) && 0 < |order| <= d.botCount
    requires BroadcastSpills(s.cmdChans) ==> BROADCAST in order
    ensures ExtraFor(s, d, order) == 0 || (forall i :: 0 <= i < |order| ==> order[i] == BROADCAST)
            <==> |order| == 1 || !BroadcastSpills(s.cmdChans)
  {
    if BroadcastSpills(s.cmdChans) {
      RemainderRange(d.botCount, |order|);
      ProductBounds(|order|, Quotient(d.botCount, |order|));
      if |order| == 1 { assert order[0] == BROADCAST; } else { assert order[0] != order[1]; }
    }
  }

  /** End to end: with workers, in any state that keeps the invariant of all runs, a dispatch whose
      commands are all received once spawns as many bots as asked for exactly when that is at least
      one for each worker and no command of one worker goes out on the topic of all. */
  lemma DispatchSpawnsExactlyIff(s: State, d: Dispatch, order: seq<string>)
    requires Invariant(s) && IsOrderOf(order, s.workers.Keys) && |s.workers| > 0
    ensures forall i :: 0 <= i < |order| ==> order[i] in s.cmdChans
    ensures SumIssued(Issued(s, d, order), |order|) == d.botCount
            <==> d.botCount >= |s.workers| && (|s.workers| == 1 || !BroadcastSpills(s.cmdChans))
  {
    OrderCoversWorkers(s, order);
    SumOfIssued(s, d, order);
    SpawnedExactlyIff(d.botCount, |order|);
    SpawnedNeverFewer(d.botCount, |order|);
    if d.botCount >= |order| { ExtraIff(s, d, order); }
  }

  // ---- from the start of a session to its bots -------------------------------------------

  /** End to end: after a start that succeeds, with workers, the session's own dispatch can run next; it
      brings the session to running, and its commands spawn as many bots as the session asks for under
      the condition above. */
  lemma StartLeadsToBots(s: State, sess: Session, at: int, order: seq<string>)
    requires Invariant(s) && Enabled(s, Start(sess, true), at)
    requires |s.workers| > 0 && IsOrderOf(order, s.workers.Keys)
    ensures var d := Dispatch(sess.sessionId, sess.targetUrl, sess.endpointType, sess.botCount, sess.durationSecs);
            var begun := Step(s, Start(sess, true), at);
            && Invariant(begun) && Enabled(begun, RunDispatch(d, order), at)
            && IsRunning(Step(begun, RunDispatch(d, order), at), sess.sessionId)
            && sess.sessionId in Step(begun, RunDispatch(d, order), at).timers
            && (forall i :: 0 <= i < |order| ==> order[i] in begun.cmdChans)
            && (SumIssued(Issued(begun, d, order), |order|) == sess.botCount
                <==> sess.botCount >= |s.workers| && (|s.workers| == 1 || !BroadcastSpills(s.cmdChans)))
  {
    var d := Dispatch(sess.sessionId, sess.targetUrl, sess.endpointType, sess.botCount, sess.durationSecs);
    var begun := Step(s, Start(sess, true), at);
    StepKeepsInvariant(s, Start(sess, true), at);
    DispatchOwn(begun, d, order, at);
    DispatchSpawnsExactlyIff(begun, d, order);
  }

  lemma DispatchOwn(s: State, d: Dispatch, order: seq<string>, at: int)
    requires s.now <= at && d in s.dispatches && d.sessionId in s.sessions
    requires |s.workers| > 0 && IsOrderOf(order, s.workers.Keys)
    ensures Enabled(s, RunDispatch(d, order), at)
    ensures IsRunning(Step(s, RunDispatch(d, order), at), d.sessionId)
    ensures d.sessionId in Step(s, RunDispatch(d, order), at).timers
  {
    OrderCoversWorkers(s, order);
  }
}
