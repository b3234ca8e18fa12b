/** A worker's side of the protocol: the poll loop takes START and STOP commands one at a time,
    every START leaves the spawning of its bots to a goroutine that may run at any later time,
    even between the two halves of a STOP, and bots run until their context is cancelled. */
module WorkerProtocol {
  import opened Orchestration
  import Dispatching

  /** What happens in a worker. A spawn is named by the position of its START among the STARTs. */
  datatype Event =
    | Started(cmd: Cmd)
    | SpawnRan(start: nat)
    | StopBegun(sessionId: string)
    | BotsStopped

  datatype Bot = Bot(start: nat, number: nat)

  // ---- what a log of events says ---------------------------------------------------------

  function Starts(log: seq<Event>): seq<Cmd> {
    if log == [] then []
    else
      var init, last := log[..|log| - 1], log[|log| - 1];
      if last.Started? then Starts(init) + [last.cmd] else Starts(init)
  }

  /** The START that no later START or STOP has ended. */
  function Latest(log: seq<Event>): Option<nat> {
    if log == [] then None
    else
      var init := log[..|log| - 1];
      match log[|log| - 1]
      case Started(_) => Some(|Starts(init)|)
      case SpawnRan(_) => Latest(init)
      case _ => None
  }

  /** The poll loop is between the two halves of a STOP. */
  predicate MidStop(log: seq<Event>) {
    log != [] &&
    match log[|log| - 1]
    case SpawnRan(_) => MidStop(log[..|log| - 1])
    case last => last.StopBegun?
  }

  /** The loop handles one command at a time, and each START spawns once. */
  predicate WellFormed(log: seq<Event>) {
    log == [] ||
    var init := log[..|log| - 1];
    WellFormed(init) &&
    match log[|log| - 1]
    case Started(_) => !MidStop(init)
    case SpawnRan(start) => start < |Starts(init)| && SpawnRan(start) !in init
    case StopBegun(_) => !MidStop(init)
    case BotsStopped => MidStop(init)
  }

  function BotsFor(start: nat, count: nat): (bots: seq<Bot>)
    ensures |bots| == count
  {
    seq(count, number requires 0 <= number => Bot(start, number))
  }

  /** All bots ever spawned, in order. */
  function Spawned(log: seq<Event>): seq<Bot>
    requires WellFormed(log)
  {
    if log == [] then []
    else
      var init, last := log[..|log| - 1], log[|log| - 1];
      if last.SpawnRan?
      then Spawned(init) + BotsFor(last.start, Dispatching.BotsSpawned(Starts(init)[last.start].botCount))
      else Spawned(init)
  }

  /** How many of them were spawned before the last stop. */
  function StoppedBots(log: seq<Event>): nat
    requires WellFormed(log)
  {
    if log == [] then 0
    else
      var init := log[..|log| - 1];
      if log[|log| - 1].BotsStopped? then |Spawned(init)| else StoppedBots(init)
  }

  // ---- the latest START, defined by position ---------------------------------------------

  ghost predicate IsLatestStart(log: seq<Event>, k: nat) {
    && k < |log| && log[k].Started?
    && forall j :: k < j < |log| ==> log[j].SpawnRan?
  }

  lemma {:induction false} LatestIff(log: seq<Event>, start: nat)
    ensures Latest(log) == Some(start) <==> exists k: nat :: IsLatestStart(log, k) && |Starts(log[..k])| == start
  {
    if log != [] {
      var n := |log| - 1;
      var init := log[..n];
      LatestIff(init, start);
      forall k | 0 <= k < n ensures log[..k] == init[..k] {}
      if log[n].SpawnRan? {
        forall k: nat ensures IsLatestStart(log, k) <==> IsLatestStart(init, k) {
          if IsLatestStart(log, k) { assert k != n; }
        }
      } else {
        forall k: nat | k < n ensures !IsLatestStart(log, k) {
          assert !log[n].SpawnRan?;
        }
      }
    }
  }

  lemma {:induction false} LatestInRange(log: seq<Event>)
    ensures Latest(log).Some? ==> Latest(log).value < |Starts(log)|
    ensures MidStop(log) ==> Latest(log).None?
  {
    if log != [] { LatestInRange(log[..|log| - 1]); }
  }

  lemma {:induction false} SpawnedInRange(log: seq<Event>)
    requires WellFormed(log)
    ensures forall b :: 0 <= b < |Spawned(log)| ==> Spawned(log)[b].start < |Starts(log)|
    ensures StoppedBots(log) <= |Spawned(log)|
  {
    if log != [] { SpawnedInRange(log[..|log| - 1]); }
  }

  /** A bot spawned before the last stop never belongs to the latest START. */
  lemma {:induction false} StoppedAreOld(log: seq<Event>)
    requires WellFormed(log)
    ensures StoppedBots(log) <= |Spawned(log)|
    ensures forall b :: 0 <= b < StoppedBots(log) ==> Latest(log) != Some(Spawned(log)[b].start)
  {
    SpawnedInRange(log);
    if log != [] {
      var init := log[..|log| - 1];
      StoppedAreOld(init);
      SpawnedInRange(init);
      LatestInRange(init);
    }
  }

  // ---- counting --------------------------------------------------------------------------

  function CountFor(bots: seq<Bot>, start: nat): nat {
    if bots == [] then 0 else CountFor(bots[..|bots| - 1], start) + if bots[|bots| - 1].start == start then 1 else 0
  }

  lemma {:induction false} CountForAll(bots: seq<Bot>, start: nat)
    ensures CountFor(bots, start) <= |bots|
    ensures CountFor(bots, start) == |bots| <==> forall b :: 0 <= b < |bots| ==> bots[b].start == start
    ensures CountFor(bots, start) == 0 <==> forall b :: 0 <= b < |bots| ==> bots[b].start != start
  {
    if bots != [] { CountForAll(bots[..|bots| - 1], start); }
  }

  lemma {:induction false} CountForAppend(bots: seq<Bot>, more: seq<Bot>, start: nat)
    ensures CountFor(bots + more, start) == CountFor(bots, start) + CountFor(more, start)
  {
    if more == [] {
      assert bots + more == bots;
    } else {
      var init := more[..|more| - 1];
      CountForAppend(bots, init, start);
      assert (bots + more)[..|bots + more| - 1] == bots + init;
    }
  }

  /** Each START has as many bots as its command asks for once its spawn has run, none before. */
  lemma {:induction false} BotsOfStart(log: seq<Event>, start: nat)
    requires WellFormed(log) && start < |Starts(log)|
    ensures CountFor(Spawned(log), start)
            == if SpawnRan(start) in log then Dispatching.BotsSpawned(Starts(log)[start].botCount) else 0
  {
    var init, last := log[..|log| - 1], log[|log| - 1];
    assert log == init + [last];
    SpawnedInRange(init);
    if last.Started? && start == |Starts(init)| {
      CountForAll(Spawned(init), start);
      if SpawnRan(start) in init { SpawnsKnown(init, start); }
    } else {
      BotsOfStart(init, start);
      if last.SpawnRan? {
        var more := BotsFor(last.start, Dispatching.BotsSpawned(Starts(init)[last.start].botCount));
        CountForAppend(Spawned(init), more, start);
        CountForAll(more, start);
      }
    }
  }

  lemma {:induction false} SpawnsKnown(log: seq<Event>, start: nat)
    requires WellFormed(log) && SpawnRan(start) in log
    ensures start < |Starts(log)|
  {
    var init := log[..|log| - 1];
    assert log == init + [log[|log| - 1]];
    if SpawnRan(start) in init { SpawnsKnown(init, start); }
  }

  // ---- the worker ------------------------------------------------------------------------

  function Range(from: nat, to: nat): seq<nat>
    requires from <= to
  {
    seq(to - from, i requires 0 <= i => from + i)
  }

  /** Session contexts are named by their START; exactly the latest is not cancelled. */
  ghost predicate ContextsFollow(log: seq<Event>, cancelled: seq<bool>, current: Option<nat>, currentSessionId: string) {
    && |cancelled| == |Starts(log)|
    && (forall i :: 0 <= i < |cancelled| ==> (cancelled[i] <==> Latest(log) != Some(i)))
    && (current.Some? ==> current.value < |cancelled|)
    && (!MidStop(log) ==> current == Latest(log))
    && (!MidStop(log) ==> currentSessionId == if current.Some? then Starts(log)[current.value].sessionId else "")
  }

  /** Bots are named by the order of spawning; those not yet stopped are active, and only stopped
      ones have been cancelled one by one. */
  ghost predicate BotsFollow(bots: seq<Bot>, stopped: nat, botCancelled: seq<bool>, activeBots: seq<nat>,
                             cancelFuncs: map<nat, nat>)
  {
    && |botCancelled| == |bots| && stopped <= |bots|
    && activeBots == Range(stopped, |bots|)
    && (forall b :: stopped <= b < |bots| ==> !botCancelled[b])
    && (forall number :: number in cancelFuncs ==> cancelFuncs[number] < |bots|)
  }

  /** The numbers below `count` now cancel the bots from `first` on; the others are as before. */
  ghost predicate Overwritten(after: map<nat, nat>, before: map<nat, nat>, first: nat, count: nat) {
    forall number: nat ::
      && (number in after <==> number < count || number in before)
      && (number in after ==> after[number] == if number < count then first + number else before[number])
  }

  /** One of the keys has this bot's cancellation. */
  ghost predicate Holds(keys: set<nat>, cancelFuncs: map<nat, nat>, b: nat) {
    exists number :: number in keys && number in cancelFuncs && cancelFuncs[number] == b
  }

  /** A spawn is outstanding for every START that has not spawned yet. */
  ghost predicate SpawnsFollow(log: seq<Event>, spawns: map<nat, Cmd>) {
    && (forall i: nat :: i in spawns <==> i < |Starts(log)| && SpawnRan(i) !in log)
    && (forall i :: i in spawns ==> spawns[i] == Starts(log)[i])
  }

  /** `cancelFuncs` has one entry for a bot number, so a later spawn overwrites an earlier one. */
  class Worker {
    var current: Option<nat>
    var currentSessionId: string
    var cancelled: seq<bool>
    var spawns: map<nat, Cmd>
    var bots: seq<Bot>
    var botCancelled: seq<bool>
    var activeBots: seq<nat>
    var cancelFuncs: map<nat, nat>
    var orders: seq<nat>         // each bot's own count
    ghost var log: seq<Event>
    ghost var sent: seq<nat>     // the bots in the order in which they sent orders

    /** A bot's context ends with its own cancellation or with that of its session. */
    predicate Live(b: nat)
      reads this
    {
      && b < |bots| && b < |botCancelled| && bots[b].start < |cancelled|
      && !botCancelled[b] && !cancelled[bots[b].start]
    }

    ghost predicate Valid()
      reads this
    {
      && WellFormed(log)
      && ContextsFollow(log, cancelled, current, currentSessionId)
      && bots == Spawned(log)
      && BotsFollow(bots, StoppedBots(log), botCancelled, activeBots, cancelFuncs)
      && SpawnsFollow(log, spawns)
      && OrdersFollow(sent, orders, |bots|)
    }

    constructor ()
      ensures Valid() && log == [] && sent == []
    {
      orders, sent := [], [];
      current, currentSessionId, cancelled, spawns := None, "", [], map[];
      bots, botCancelled, activeBots, cancelFuncs, log := [], [], [], map[], [];
    }

    method CancelCurrent()
      requires current.Some? ==> current.value < |cancelled|
      modifies this`cancelled
      ensures cancelled == if current.Some? then old(cancelled)[current.value := true] else old(cancelled)
    {
      if current.Some? {
        cancelled := cancelled[current.value := true];
      }
    }

    /** The poll loop's switch over the command word; any other word does nothing. */
    method TakeCommand(cmd: Cmd)
      requires Valid() && !MidStop(log)
      modifies this
      ensures Valid()
      ensures cmd.command == "START" ==> log == old(log) + [Started(cmd)] && !MidStop(log)
      ensures cmd.command == "STOP" ==> log == old(log) + [StopBegun(cmd.sessionId)] && MidStop(log)
      ensures cmd.command != "START" && cmd.command != "STOP" ==> log == old(log) && !MidStop(log)
      ensures bots == old(bots) && activeBots == old(activeBots) && orders == old(orders) && sent == old(sent)
    {
      if cmd.command == "START" {
        StartGrows(log, cmd);
        Start(cmd);
      } else if cmd.command == "STOP" {
        StopGrows(log, StopBegun(cmd.sessionId));
        BeginStop(cmd.sessionId);
      }
    }

    /** START: the old session's context is cancelled, a new one made, its spawn left to run. */
    method Start(cmd: Cmd)
      requires Valid() && !MidStop(log)
      modifies this
      ensures Valid() && log == old(log) + [Started(cmd)]
      ensures bots == old(bots) && activeBots == old(activeBots) && orders == old(orders) && sent == old(sent)
    {
      hide BotsFollow, OrdersFollow, WellFormed, MidStop, Starts, Latest, Spawned, StoppedBots;
      StartGrows(log, cmd);
      StartKeepsContexts(log, cmd, cancelled, current, currentSessionId);
      StartKeepsSpawns(log, cmd, spawns);
      assert |cancelled| == |Starts(log)| && (current.Some? ==> current.value < |cancelled|);
      hide ContextsFollow, SpawnsFollow;
      CancelCurrent();
      spawns := spawns[|cancelled| := cmd];
      current, currentSessionId, cancelled := Some(|cancelled|), cmd.sessionId, cancelled + [false];
      log := log + [Started(cmd)];
    }

    /** The goroutine that a START left behind. */
    method SpawnBots(start: nat)
      requires Valid() && start in spawns
      modifies this
      ensures Valid() && log == old(log) + [SpawnRan(start)] && sent == old(sent)
      ensures Overwritten(cancelFuncs, old(cancelFuncs), |old(bots)|, Dispatching.BotsSpawned(Starts(log)[start].botCount))
      ensures var count := old(spawns)[start].botCount;
              |bots| == |old(bots)| + if count == 0 then 8 else if count < 0 then 0 else count
    {
      hide BotsFollow, OrdersFollow, ContextsFollow, Overwritten, WellFormed, MidStop, Starts, Latest, Spawned, StoppedBots;
      SpawnGrows(log, start);
      SpawnKeepsSpawns(log, start, spawns);
      SpawnKeepsContexts(log, start, cancelled, current, currentSessionId);
      var count := if spawns[start].botCount == 0 then 8 else spawns[start].botCount;
      spawns := spawns - {start};
      SpawnAll(start, count, StoppedBots(log));
      log := log + [SpawnRan(start)];
      assert bots == Spawned(log);
    }

    method SpawnAll(start: nat, count: int, ghost stopped: nat)
      requires BotsFollow(bots, stopped, botCancelled, activeBots, cancelFuncs) && OrdersFollow(sent, orders, |bots|)
      modifies `bots, `botCancelled, `activeBots, `cancelFuncs, `orders
      ensures bots == old(bots) + BotsFor(start, if count < 0 then 0 else count)
      ensures BotsFollow(bots, stopped, botCancelled, activeBots, cancelFuncs) && OrdersFollow(sent, orders, |bots|)
      ensures Overwritten(cancelFuncs, old(cancelFuncs), |old(bots)|, if count < 0 then 0 else count)
    {
      var i := 0;
      while i < count
        invariant 0 <= i <= if count < 0 then 0 else count
        invariant bots == old(bots) + BotsFor(start, i)
        invariant BotsFollow(bots, stopped, botCancelled, activeBots, cancelFuncs) && OrdersFollow(sent, orders, |bots|)
        invariant Overwritten(cancelFuncs, old(cancelFuncs), |old(bots)|, i)
      {
        SpawnOne(start, i, stopped);
        i := i + 1;
      }
    }

    method SpawnOne(start: nat, i: nat, ghost stopped: nat)
      requires BotsFollow(bots, stopped, botCancelled, activeBots, cancelFuncs) && OrdersFollow(sent, orders, |bots|)
      modifies `bots, `botCancelled, `activeBots, `cancelFuncs, `orders
      ensures bots == old(bots) + [Bot(start, i)] && cancelFuncs == old(cancelFuncs)[i := |old(bots)|]
      ensures BotsFollow(bots, stopped, botCancelled, activeBots, cancelFuncs) && OrdersFollow(sent, orders, |bots|)
    {
      NewBotIdle(sent, orders, |bots|);
      activeBots := activeBots + [|bots|];
      orders := orders + [0];
      cancelFuncs := cancelFuncs[i := |bots|];
      bots, botCancelled := bots + [Bot(start, i)], botCancelled + [false];
    }

    /** The first half of a STOP; the session it names is not looked at. */
    method BeginStop(sessionId: string)
      requires Valid() && !MidStop(log)
      modifies this
      ensures Valid() && log == old(log) + [StopBegun(sessionId)]
      ensures bots == old(bots) && activeBots == old(activeBots) && orders == old(orders) && sent == old(sent)
    {
      hide BotsFollow, OrdersFollow, WellFormed, MidStop, Starts, Latest, Spawned, StoppedBots;
      StopGrows(log, StopBegun(sessionId));
      CancelCurrent();
      log := log + [StopBegun(sessionId)];
    }

    /** The second half: every bot of the worker is cancelled and forgotten. */
    method StopBots()
      requires Valid() && MidStop(log)
      modifies this
      ensures Valid() && log == old(log) + [BotsStopped]
      ensures bots == old(bots) && activeBots == [] && orders == old(orders) && sent == old(sent)
      ensures forall b :: 0 <= b < |bots| ==>
                (botCancelled[b] <==> old(botCancelled)[b] || Holds(old(cancelFuncs).Keys, old(cancelFuncs), b))
    {
      hide OrdersFollow, WellFormed, MidStop, Starts, Latest, Spawned, StoppedBots;
      StopGrows(log, BotsStopped);
      LatestInRange(log);
      CancelAll();
      activeBots, cancelFuncs := [], map[];
      current, currentSessionId := None, "";
      log := log + [BotsStopped];
    }

    method CancelAll()
      requires |botCancelled| == |bots| && forall number :: number in cancelFuncs ==> cancelFuncs[number] < |bots|
      modifies `botCancelled
      ensures |botCancelled| == |bots|
      ensures forall b :: 0 <= b < |bots| ==>
                (botCancelled[b] <==> old(botCancelled)[b] || Holds(cancelFuncs.Keys, cancelFuncs, b))
    {
      var left := cancelFuncs.Keys;
      while left != {}
        invariant |botCancelled| == |bots| && left <= cancelFuncs.Keys
        invariant forall b :: 0 <= b < |bots| ==>
                    (botCancelled[b] <==> old(botCancelled)[b] || Holds(cancelFuncs.Keys - left, cancelFuncs, b))
      {
        var number :| number in left;
        botCancelled := botCancelled[cancelFuncs[number] := true];
        left := left - {number};
      }
    }

    /** At every moment the live bots are exactly those of the latest START with no later STOP,
        however late the spawns ran. */
    lemma LiveIffLatest(b: nat)
      requires Valid() && b < |bots|
      ensures Live(b) <==> Latest(log) == Some(bots[b].start)
    {
      SpawnedInRange(log);
      StoppedAreOld(log);
    }

    /** At most one session context is live, that of the latest START with no later STOP. */
    lemma OneLiveContext(i: nat, j: nat)
      requires Valid() && i < |cancelled| && j < |cancelled| && !cancelled[i] && !cancelled[j]
      ensures i == j && exists k: nat :: IsLatestStart(log, k) && |Starts(log[..k])| == i
    {
      LatestIff(log, i);
    }

    /** The bots that a heartbeat counts include all live ones, and no others exactly when no spawn
        that ran since the last stop made bots for a START that is not the latest: a START does not
        forget the bots of the one before, and a late spawn adds dead ones. */
    lemma HeartbeatCountIff()
      requires Valid()
      ensures |activeBots| >= LiveCount(log)
      ensures |activeBots| == LiveCount(log) <==> OnlyLatestSpawned(log)
    {
      ActiveSplit(log);
      ActiveFromLatestIff(log);
    }

    /** One more order of a bot; a bot may finish a sending after its context has ended. */
    method CountOrder(b: nat)
      requires Valid() && b < |bots|
      modifies `orders, `sent
      ensures Valid() && sent == old(sent) + [b] && orders == old(orders)[b := old(orders)[b] + 1]
    {
      OneMoreOrder(sent, orders, |bots|, b);
      orders, sent := orders[b := orders[b] + 1], sent + [b];
    }

    /** The orders that a heartbeat reports. */
    method TotalOrdersSent() returns (total: nat)
      requires Valid()
      ensures total == SumOrders(orders, activeBots, |activeBots|)
    {
      total := 0;
      for i := 0 to |activeBots|
        invariant total == SumOrders(orders, activeBots, i)
      {
        total := total + orders[activeBots[i]];
      }
    }

    /** Whatever session a heartbeat names, the orders it reports are all that session's exactly when
        no bot spawned since the last stop for another session has sent one. */
    lemma HeartbeatOrdersIff(sessionId: string)
      requires Valid()
      ensures SumFor(orders, bots, Starts(log), sessionId, activeBots, |activeBots|)
              <= SumOrders(orders, activeBots, |activeBots|)
      ensures SumFor(orders, bots, Starts(log), sessionId, activeBots, |activeBots|)
              == SumOrders(orders, activeBots, |activeBots|)
              <==> forall b :: b in sent && b >= StoppedBots(log) ==> b < |bots| && IsFor(bots, Starts(log), sessionId, b)
    {
      SumsEqualIff(orders, bots, Starts(log), sessionId, activeBots, |activeBots|);
      ActiveSendersIff(sent, orders, bots, Starts(log), sessionId, StoppedBots(log), activeBots);
    }
  }

  // ---- orders ----------------------------------------------------------------------------

  function CountIn(sent: seq<nat>, b: nat): nat {
    if sent == [] then 0 else CountIn(sent[..|sent| - 1], b) + if sent[|sent| - 1] == b then 1 else 0
  }

  lemma {:induction false} CountInIff(sent: seq<nat>, b: nat)
    ensures CountIn(sent, b) > 0 <==> b in sent
  {
    if sent != [] {
      CountInIff(sent[..|sent| - 1], b);
      assert sent == sent[..|sent| - 1] + [sent[|sent| - 1]];
    }
  }

  /** Each of n bots has counted the orders it sent. */
  ghost predicate OrdersFollow(sent: seq<nat>, orders: seq<nat>, n: nat) {
    && |orders| == n
    && (forall b :: b in sent ==> b < n)
    && (forall b :: 0 <= b < n ==> orders[b] == CountIn(sent, b))
  }

  lemma OneMoreOrder(sent: seq<nat>, orders: seq<nat>, n: nat, b: nat)
    requires OrdersFollow(sent, orders, n) && b < n
    ensures OrdersFollow(sent + [b], orders[b := orders[b] + 1], n)
  {
    assert (sent + [b])[..|sent|] == sent;
  }

  lemma NewBotIdle(sent: seq<nat>, orders: seq<nat>, n: nat)
    requires OrdersFollow(sent, orders, n)
    ensures OrdersFollow(sent, orders + [0], n + 1)
  {
    CountInIff(sent, n);
  }

  /** The orders of the first k listed bots. */
  function SumOrders(orders: seq<nat>, listed: seq<nat>, k: nat): nat
    requires k <= |listed| && forall i :: 0 <= i < |listed| ==> listed[i] < |orders|
  {
    if k == 0 then 0 else SumOrders(orders, listed, k - 1) + orders[listed[k - 1]]
  }

  /** The bot was spawned by a START of this session. */
  predicate IsFor(bots: seq<Bot>, starts: seq<Cmd>, sessionId: string, b: nat)
    requires b < |bots|
  {
    bots[b].start < |starts| && starts[bots[b].start].sessionId == sessionId
  }

  /** The orders of those among them that were spawned for a session. */
  function SumFor(orders: seq<nat>, bots: seq<Bot>, starts: seq<Cmd>, sessionId: string, listed: seq<nat>, k: nat): nat
    requires k <= |listed| && |orders| == |bots| && forall i :: 0 <= i < |listed| ==> listed[i] < |orders|
  {
    if k == 0 then 0
    else
      SumFor(orders, bots, starts, sessionId, listed, k - 1)
      + if IsFor(bots, starts, sessionId, listed[k - 1]) then orders[listed[k - 1]] else 0
  }

  lemma {:induction false} SumsEqualIff(orders: seq<nat>, bots: seq<Bot>, starts: seq<Cmd>, sessionId: string,
                                        listed: seq<nat>, k: nat)
    requires k <= |listed| && |orders| == |bots| && forall i :: 0 <= i < |listed| ==> listed[i] < |orders|
    ensures SumFor(orders, bots, starts, sessionId, listed, k) <= SumOrders(orders, listed, k)
    ensures SumFor(orders, bots, starts, sessionId, listed, k) == SumOrders(orders, listed, k)
            <==> forall i :: 0 <= i < k ==> orders[listed[i]] == 0 || IsFor(bots, starts, sessionId, listed[i])
  {
    if k > 0 { SumsEqualIff(orders, bots, starts, sessionId, listed, k - 1); }
  }

  lemma ActiveSendersIff(sent: seq<nat>, orders: seq<nat>, bots: seq<Bot>, starts: seq<Cmd>, sessionId: string,
                         stopped: nat, active: seq<nat>)
    requires OrdersFollow(sent, orders, |bots|) && stopped <= |bots| && active == Range(stopped, |bots|)
    ensures (forall i :: 0 <= i < |active| ==> orders[active[i]] == 0 || IsFor(bots, starts, sessionId, active[i]))
            <==> forall b :: b in sent && b >= stopped ==> b < |bots| && IsFor(bots, starts, sessionId, b)
  {
    if forall b :: b in sent && b >= stopped ==> b < |bots| && IsFor(bots, starts, sessionId, b) {
      forall i | 0 <= i < |active| ensures orders[active[i]] == 0 || IsFor(bots, starts, sessionId, active[i]) {
        CountInIff(sent, active[i]);
      }
    }
    if forall i :: 0 <= i < |active| ==> orders[active[i]] == 0 || IsFor(bots, starts, sessionId, active[i]) {
      forall b | b in sent && b >= stopped ensures b < |bots| && IsFor(bots, starts, sessionId, b) {
        CountInIff(sent, b);
        assert active[b - stopped] == b;
      }
    }
  }

  /** A START that follows a START: the old bot's order is reported under the new session. */
  lemma OldOrdersReported(earlier: Cmd, next: Cmd)
    requires earlier.botCount == 1 && earlier.sessionId != next.sessionId
    ensures var log := [Started(earlier), SpawnRan(0), Started(next)];
            && WellFormed(log) && Spawned(log) == [Bot(0, 0)] && OrdersFollow([0], [1], 1)
            && StoppedBots(log) == 0 && Range(0, 1) == [0] && Latest(log) == Some(1) && Starts(log) == [earlier, next]
            && SumOrders([1], [0], 1) == 1 && SumFor([1], [Bot(0, 0)], [earlier, next], next.sessionId, [0], 1) == 0
  {
    StartGrows([], earlier);
    assert [] + [Started(earlier)] == [Started(earlier)];
    SpawnGrows([Started(earlier)], 0);
    assert [Started(earlier)] + [SpawnRan(0)] == [Started(earlier), SpawnRan(0)];
    StartGrows([Started(earlier), SpawnRan(0)], next);
    assert [Started(earlier), SpawnRan(0)] + [Started(next)] == [Started(earlier), SpawnRan(0), Started(next)];
    assert BotsFor(0, 1) == [Bot(0, 0)];
    assert CountIn([0], 0) == 1 by { CountInIff([0], 0); assert [0][..0] == []; }
    assert SumOrders([1], [0], 0) == 0 && SumFor([1], [Bot(0, 0)], [earlier, next], next.sessionId, [0], 0) == 0;
  }

  // ---- live and active bots --------------------------------------------------------------

  /** The bots with a live context. */
  function LiveCount(log: seq<Event>): nat
    requires WellFormed(log)
  {
    if Latest(log).Some? then CountFor(Spawned(log), Latest(log).value) else 0
  }

  /** The bots spawned since the last stop. */
  function Active(log: seq<Event>): seq<Bot>
    requires WellFormed(log) && StoppedBots(log) <= |Spawned(log)|
  {
    Spawned(log)[StoppedBots(log)..]
  }

  lemma ActiveSplit(log: seq<Event>)
    requires WellFormed(log)
    ensures StoppedBots(log) <= |Spawned(log)|
    ensures |Active(log)| >= LiveCount(log)
    ensures |Active(log)| == LiveCount(log)
            <==> forall i :: 0 <= i < |Active(log)| ==> Latest(log) == Some(Active(log)[i].start)
  {
    StoppedAreOld(log);
    if Latest(log).Some? {
      var start, stopped := Latest(log).value, Spawned(log)[..StoppedBots(log)];
      assert Spawned(log) == stopped + Active(log);
      CountForAppend(stopped, Active(log), start);
      CountForAll(stopped, start);
      CountForAll(Active(log), start);
    } else if |Active(log)| > 0 {
      assert Latest(log) != Some(Active(log)[0].start);
    }
  }

  /** The spawn of this START ran after the last stop. */
  ghost predicate SpawnedSinceStop(log: seq<Event>, start: nat) {
    exists j :: 0 <= j < |log| && log[j] == SpawnRan(start) && forall i :: j < i < |log| ==> !log[i].BotsStopped?
  }

  /** Every spawn since the last stop that made any bots was that of the latest START. */
  ghost predicate OnlyLatestSpawned(log: seq<Event>) {
    forall start: nat :: SpawnedSinceStop(log, start) ==>
      Latest(log) == Some(start) || (start < |Starts(log)| && Dispatching.BotsSpawned(Starts(log)[start].botCount) == 0)
  }

  lemma SinceStopSnoc(log: seq<Event>, e: Event, start: nat)
    ensures SpawnedSinceStop(log + [e], start) <==> e == SpawnRan(start) || (!e.BotsStopped? && SpawnedSinceStop(log, start))
  {
    var log' := log + [e];
    assert log'[|log|] == e && forall i :: 0 <= i < |log| ==> log'[i] == log[i];
    if SpawnedSinceStop(log', start) {
      var j :| 0 <= j < |log'| && log'[j] == SpawnRan(start) && forall i :: j < i < |log'| ==> !log'[i].BotsStopped?;
      if j < |log| { assert log[j] == SpawnRan(start) && !log'[|log|].BotsStopped?; }
    }
    if !e.BotsStopped? && SpawnedSinceStop(log, start) {
      var j :| 0 <= j < |log| && log[j] == SpawnRan(start) && forall i :: j < i < |log| ==> !log[i].BotsStopped?;
      assert log'[j] == SpawnRan(start);
    }
  }

  /** A START has active bots exactly when its spawn ran since the last stop and made some. */
  lemma {:induction false} ActiveOfStart(log: seq<Event>, start: nat)
    requires WellFormed(log)
    ensures StoppedBots(log) <= |Spawned(log)|
    ensures CountFor(Active(log), start) > 0 <==>
              && SpawnedSinceStop(log, start) && start < |Starts(log)|
              && Dispatching.BotsSpawned(Starts(log)[start].botCount) > 0
    ensures SpawnedSinceStop(log, start) ==> start < |Starts(log)|
  {
    SpawnedInRange(log);
    if log != [] {
      var init, last := log[..|log| - 1], log[|log| - 1];
      assert log == init + [last];
      ActiveOfStart(init, start);
      SpawnedInRange(init);
      SinceStopSnoc(init, last, start);
      match last
      case SpawnRan(k) =>
        var more := BotsFor(k, Dispatching.BotsSpawned(Starts(init)[k].botCount));
        assert Active(log) == Active(init) + more;
        CountForAppend(Active(init), more, start);
        CountForAll(more, start);
      case BotsStopped => assert Active(log) == [];
      case Started(_) =>
      case StopBegun(_) =>
    }
  }

  lemma ActiveFromLatestIff(log: seq<Event>)
    requires WellFormed(log)
    ensures StoppedBots(log) <= |Spawned(log)|
    ensures (forall i :: 0 <= i < |Active(log)| ==> Latest(log) == Some(Active(log)[i].start)) <==> OnlyLatestSpawned(log)
  {
    SpawnedInRange(log);
    var active := Active(log);
    forall start: nat
      ensures && SpawnedSinceStop(log, start)
              && !(start < |Starts(log)| && Dispatching.BotsSpawned(Starts(log)[start].botCount) == 0)
              <==> exists i :: 0 <= i < |active| && active[i].start == start
    {
      ActiveOfStart(log, start);
      CountForAll(active, start);
    }
  }

  /** After a START whose spawn has run, and until the next command, as many bots live as it asked
      for; before the spawn, and after a STOP, none. */
  lemma LiveCountExact(log: seq<Event>)
    requires WellFormed(log)
    ensures Latest(log).Some? ==> Latest(log).value < |Starts(log)|
    ensures LiveCount(log) == match Latest(log)
                              case None => 0
                              case Some(start) =>
                                if SpawnRan(start) in log then Dispatching.BotsSpawned(Starts(log)[start].botCount) else 0
  {
    LatestInRange(log);
    if Latest(log).Some? { BotsOfStart(log, Latest(log).value); }
  }

  /** The bot runs: it belongs to the latest START. */
  ghost predicate RunsAfter(log: seq<Event>, b: nat)
    requires WellFormed(log)
  {
    b < |Spawned(log)| && Latest(log) == Some(Spawned(log)[b].start)
  }

  /** A STOP ends a bot that was started for another session than the one it names. */
  ghost predicate EndsOthers(log: seq<Event>, sessionId: string)
    requires WellFormed(log) && WellFormed(log + [StopBegun(sessionId)])
  {
    exists b :: RunsAfter(log, b) && !RunsAfter(log + [StopBegun(sessionId)], b)
                && !IsFor(Spawned(log), Starts(log), sessionId, b)
  }

  /** A STOP ends the bots of another session exactly when the latest START is of another session and its
      spawn has run and made bots: a STOP for a session that is over ends the next one. */
  lemma StopEndsOthersIff(log: seq<Event>, sessionId: string)
    requires WellFormed(log) && !MidStop(log)
    ensures WellFormed(log + [StopBegun(sessionId)])
    ensures EndsOthers(log, sessionId) <==>
              && Latest(log).Some? && Latest(log).value < |Starts(log)|
              && var cmd := Starts(log)[Latest(log).value];
                 && cmd.sessionId != sessionId
                 && SpawnRan(Latest(log).value) in log && Dispatching.BotsSpawned(cmd.botCount) > 0
  {
    StopGrows(log, StopBegun(sessionId));
    LatestInRange(log);
    SpawnedInRange(log);
    if Latest(log).Some? {
      var start := Latest(log).value;
      BotsOfStart(log, start);
      CountForAll(Spawned(log), start);
      if b: nat :| b < |Spawned(log)| && Spawned(log)[b].start == start {
        assert RunsAfter(log, b) && !RunsAfter(log + [StopBegun(sessionId)], b);
      }
    }
  }

  /** Two logs after which the heartbeat counts bots although none is live: a START that follows a
      START, and a spawn that runs after its STOP. */
  lemma DeadBotsCounted(cmd: Cmd)
    requires cmd.botCount >= 0
    ensures var stop := StopBegun(cmd.sessionId);
            var again, late := [Started(cmd), SpawnRan(0), Started(cmd)], [Started(cmd), stop, BotsStopped, SpawnRan(0)];
            && WellFormed(again) && StoppedBots(again) <= |Spawned(again)| && |Active(again)| > 0 && LiveCount(again) == 0
            && WellFormed(late) && StoppedBots(late) <= |Spawned(late)| && |Active(late)| > 0 && LiveCount(late) == 0
  {
    var stop := StopBegun(cmd.sessionId);
    StartGrows([], cmd);
    assert [] + [Started(cmd)] == [Started(cmd)];
    SpawnGrows([Started(cmd)], 0);
    assert [Started(cmd)] + [SpawnRan(0)] == [Started(cmd), SpawnRan(0)];
    StartGrows([Started(cmd), SpawnRan(0)], cmd);
    assert [Started(cmd), SpawnRan(0)] + [Started(cmd)] == [Started(cmd), SpawnRan(0), Started(cmd)];
    LiveCountExact([Started(cmd), SpawnRan(0), Started(cmd)]);
    StopGrows([Started(cmd)], stop);
    assert [Started(cmd)] + [stop] == [Started(cmd), stop];
    StopGrows([Started(cmd), stop], BotsStopped);
    assert [Started(cmd), stop] + [BotsStopped] == [Started(cmd), stop, BotsStopped];
    SpawnGrows([Started(cmd), stop, BotsStopped], 0);
    assert [Started(cmd), stop, BotsStopped] + [SpawnRan(0)] == [Started(cmd), stop, BotsStopped, SpawnRan(0)];
  }

  // ---- what each event does to the log's meaning -----------------------------------------

  lemma StartGrows(log: seq<Event>, cmd: Cmd)
    requires WellFormed(log) && !MidStop(log)
    ensures var log' := log + [Started(cmd)];
            && WellFormed(log') && !MidStop(log') && Starts(log') == Starts(log) + [cmd]
            && Latest(log') == Some(|Starts(log)|)
            && Spawned(log') == Spawned(log) && StoppedBots(log') == StoppedBots(log)
  {
    assert (log + [Started(cmd)])[..|log|] == log;
  }

  lemma StartKeepsContexts(log: seq<Event>, cmd: Cmd, cancelled: seq<bool>, current: Option<nat>, sessionId: string)
    requires WellFormed(log) && !MidStop(log) && ContextsFollow(log, cancelled, current, sessionId)
    ensures var ended := if current.Some? then cancelled[current.value := true] else cancelled;
            ContextsFollow(log + [Started(cmd)], ended + [false], Some(|cancelled|), cmd.sessionId)
  {
    StartGrows(log, cmd);
  }

  lemma StartKeepsSpawns(log: seq<Event>, cmd: Cmd, spawns: map<nat, Cmd>)
    requires WellFormed(log) && !MidStop(log) && SpawnsFollow(log, spawns)
    ensures SpawnsFollow(log + [Started(cmd)], spawns[|Starts(log)| := cmd])
  {
    StartGrows(log, cmd);
    if SpawnRan(|Starts(log)|) in log { SpawnsKnown(log, |Starts(log)|); }
  }

  lemma SpawnGrows(log: seq<Event>, start: nat)
    requires WellFormed(log) && start < |Starts(log)| && SpawnRan(start) !in log
    ensures var log' := log + [SpawnRan(start)];
            && WellFormed(log') && Starts(log') == Starts(log) && Latest(log') == Latest(log)
            && (MidStop(log') <==> MidStop(log)) && StoppedBots(log') == StoppedBots(log)
            && Spawned(log') == Spawned(log) + BotsFor(start, Dispatching.BotsSpawned(Starts(log)[start].botCount))
  {
    assert (log + [SpawnRan(start)])[..|log|] == log;
  }

  lemma SpawnKeepsContexts(log: seq<Event>, start: nat, cancelled: seq<bool>, current: Option<nat>, sessionId: string)
    requires WellFormed(log) && ContextsFollow(log, cancelled, current, sessionId)
    requires start < |Starts(log)| && SpawnRan(start) !in log
    ensures ContextsFollow(log + [SpawnRan(start)], cancelled, current, sessionId)
  {
    SpawnGrows(log, start);
  }

  lemma SpawnKeepsSpawns(log: seq<Event>, start: nat, spawns: map<nat, Cmd>)
    requires WellFormed(log) && SpawnsFollow(log, spawns) && start in spawns
    ensures SpawnsFollow(log + [SpawnRan(start)], spawns - {start})
  {
    SpawnGrows(log, start);
  }

  lemma StopGrows(log: seq<Event>, half: Event)
    requires WellFormed(log)
    requires if MidStop(log) then half.BotsStopped? else half.StopBegun?
    ensures var log' := log + [half];
            && WellFormed(log') && (MidStop(log') <==> half.StopBegun?) && Starts(log') == Starts(log) && Latest(log') == None
            && Spawned(log') == Spawned(log)
            && StoppedBots(log') == (if half.BotsStopped? then |Spawned(log)| else StoppedBots(log))
            && (forall i: nat :: SpawnRan(i) in log' <==> SpawnRan(i) in log)
  {
    assert (log + [half])[..|log|] == log;
  }
}
