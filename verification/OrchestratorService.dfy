/** The orchestrator as the object it is: mutable tables behind one mutex. Every method is one
    critical section and takes exactly the step of the state machine; its loops build up what the
    state machine gives in one expression. */
module OrchestratorService {
  import opened Orchestration
  import opened Sets
  import Dispatching

  /** A send that gives up when the channel is full, and what is published instead. */
  function Sent(chans: map<string, seq<Cmd>>, id: string, cmd: Cmd): map<string, seq<Cmd>> {
    if id in chans && |chans[id]| < CHANNEL_CAPACITY then chans[id := chans[id] + [cmd]] else chans
  }

  function Spilled(chans: map<string, seq<Cmd>>, id: string, cmd: Cmd): seq<(string, Cmd)> {
    if id in chans && |chans[id]| >= CHANNEL_CAPACITY then [("worker:" + id, cmd)] else []
  }

  /** Serving the workers one after another gives what the state machine says of all of them. */
  lemma ServeNext(chans: map<string, seq<Cmd>>, d: Dispatch, order: seq<string>, k: nat)
    requires k < |order| && Dispatching.NoRepeats(order)
    ensures Sent(Served(chans, d, order, k), order[k], CmdFor(d, order, k)) == Served(chans, d, order, k + 1)
  {
    hide IndexIn;
    assert IndexIn(order, order[k]) == k;
    var before, after := Served(chans, d, order, k), Served(chans, d, order, k + 1);
    var sent := Sent(before, order[k], CmdFor(d, order, k));
    assert sent.Keys == chans.Keys == after.Keys;
    forall id | id in chans ensures sent[id] == after[id] {
      if id != order[k] && id in order { assert IndexIn(order, id) != k; }
    }
  }

  lemma SpillNext(chans: map<string, seq<Cmd>>, d: Dispatch, order: seq<string>, k: nat)
    requires k < |order| && Dispatching.NoRepeats(order)
    ensures Overflow(chans, d, order, k) + Spilled(Served(chans, d, order, k), order[k], CmdFor(d, order, k))
            == Overflow(chans, d, order, k + 1)
  {
    assert IndexIn(order, order[k]) == k;
  }

  /** The channels, and what is published, after sending to the first k workers one by one. */
  function SentAll(chans: map<string, seq<Cmd>>, d: Dispatch, order: seq<string>, k: nat): map<string, seq<Cmd>>
    requires k <= |order|
  {
    if k == 0 then chans else Sent(SentAll(chans, d, order, k - 1), order[k - 1], CmdFor(d, order, k - 1))
  }

  function SpilledAll(chans: map<string, seq<Cmd>>, d: Dispatch, order: seq<string>, k: nat): seq<(string, Cmd)>
    requires k <= |order|
  {
    if k == 0 then []
    else SpilledAll(chans, d, order, k - 1) + Spilled(SentAll(chans, d, order, k - 1), order[k - 1], CmdFor(d, order, k - 1))
  }

  lemma {:induction false} OneByOne(chans: map<string, seq<Cmd>>, d: Dispatch, order: seq<string>, k: nat)
    requires k <= |order| && Dispatching.NoRepeats(order)
    ensures SentAll(chans, d, order, k) == Served(chans, d, order, k)
  {
    hide Served, Sent, CmdFor, Dispatching.NoRepeats;
    if k == 0 {
      ServedNone(chans, d, order);
    } else {
      OneByOne(chans, d, order, k - 1);
      ServeNext(chans, d, order, k - 1);
    }
  }

  lemma ServedNone(chans: map<string, seq<Cmd>>, d: Dispatch, order: seq<string>)
    ensures Served(chans, d, order, 0) == chans
  {
  }

  lemma {:induction false} SpilledOneByOne(chans: map<string, seq<Cmd>>, d: Dispatch, order: seq<string>, k: nat)
    requires k <= |order| && Dispatching.NoRepeats(order)
    ensures SpilledAll(chans, d, order, k) == Overflow(chans, d, order, k)
  {
    hide Served, Sent, SentAll, Spilled, CmdFor, Dispatching.NoRepeats;
    if k > 0 {
      SpilledOneByOne(chans, d, order, k - 1);
      OneByOne(chans, d, order, k - 1);
      SpillNext(chans, d, order, k - 1);
    }
  }

  class Orchestrator {
    var sessions: map<string, Session>
    var workers: map<string, WorkerInfo>
    var cmdChans: map<string, seq<Cmd>>
    var lastReportedOrders: map<string, int>
    var dispatches: multiset<Dispatch>
    var timers: multiset<string>
    var published: seq<(string, Cmd)>
    var now: int

    ghost function View(): State
      reads this
    {
      State(sessions, workers, cmdChans, lastReportedOrders, dispatches, timers, published, now)
    }

    /** Every object that its methods can reach keeps the invariant of all runs. */
    ghost predicate Valid()
      reads this
    {
      Invariant(View())
    }

    constructor ()
      ensures Valid() && View() == INITIAL
    {
      InitialInvariant();
      sessions, workers, cmdChans, lastReportedOrders := map[], map[], map[], map[];
      dispatches, timers, published, now := multiset{}, multiset{}, [], 0;
    }

    /** An empty identifier is replaced by a generated one. The session is stored even when Redis
        then fails, but only a success leaves a dispatch to run. */
    method StartSession(sessionId: string, generated: string, submissionId: string, targetUrl: string, endpointType: string,
                        botCount: int, durationSecs: int, redisOk: bool, at: int)
      returns (r: Option<Session>)
      requires Valid() && now <= at
      modifies this
      ensures Valid()
      ensures var id := if sessionId == "" then generated else sessionId;
              var sess := NewSession(id, submissionId, targetUrl, endpointType, botCount, durationSecs, at);
              && Enabled(old(View()), Start(sess, redisOk), at)
              && View() == Step(old(View()), Start(sess, redisOk), at)
              && r == if redisOk then Some(sess) else None
      ensures var id := if sessionId == "" then generated else sessionId;
              && sessions == old(sessions)[id := Session(id, submissionId, Pending, targetUrl, endpointType, botCount,
                                                         durationSecs, 0, 0, at, None, None)]
              && dispatches == if redisOk
                               then old(dispatches) + multiset{Dispatch(id, targetUrl, endpointType, botCount, durationSecs)}
                               else old(dispatches)
    {
      hide Invariant;
      var id := if sessionId == "" then generated else sessionId;
      var sess := Session(id, submissionId, Pending, targetUrl, endpointType, botCount, durationSecs, 0, 0, at, None, None);
      now := at;
      sessions := sessions[id := sess];
      if redisOk {
        dispatches := dispatches + multiset{Dispatch(id, targetUrl, endpointType, botCount, durationSecs)};
      }
      r := if redisOk then Some(sess) else None;
      StepKeepsInvariant(old(View()), Action.Start(sess, redisOk), at);
    }

    /** The dispatch goroutine after its wait; `order` is how the worker map is iterated. */
    method DispatchToWorkers(d: Dispatch, order: seq<string>, at: int)
      requires Valid() && Enabled(View(), RunDispatch(d, order), at)
      modifies this
      ensures Valid() && View() == Step(old(View()), RunDispatch(d, order), at)
      ensures order == [] ==>
                && published == old(published)
                                + [("worker:broadcast", Cmd("START", d.sessionId, d.targetUrl, d.botCount, d.endpointType))]
                && sessions == old(sessions) && timers == old(timers) && cmdChans == old(cmdChans)
      ensures order != [] ==> timers == old(timers) + multiset{d.sessionId}
      ensures order != [] && d.sessionId in old(sessions) ==>
                sessions == old(sessions)[d.sessionId := old(sessions)[d.sessionId].(
                  status := Running, startedAt := Some(at), activeBots := d.botCount)]
    {
      hide Invariant;
      Dispatching.OrderNeverRepeats(order, workers.Keys);
      now := at;
      IssueStarts(d, order);
      StepKeepsInvariant(old(View()), RunDispatch(d, order), at);
    }

    method IssueStarts(d: Dispatch, order: seq<string>)
      requires Dispatching.NoRepeats(order)
      modifies this
      ensures View() == Dispatched(old(View()), d, order)
    {
      dispatches := dispatches - multiset{d};
      if |order| == 0 {
        published := published + [("worker:broadcast", Cmd("START", d.sessionId, d.targetUrl, d.botCount, d.endpointType))];
      } else {
        ServeAndMark(d, order);
      }
    }

    method ServeAndMark(d: Dispatch, order: seq<string>)
      requires order != [] && Dispatching.NoRepeats(order)
      modifies `cmdChans, `published, `sessions, `timers
      ensures cmdChans == Served(old(cmdChans), d, order, |order|)
      ensures published == old(published) + Overflow(old(cmdChans), d, order, |order|)
      ensures sessions == SetRunning(old(sessions), d, now) && timers == old(timers) + multiset{d.sessionId}
    {
      OneByOne(cmdChans, d, order, |order|);
      SpilledOneByOne(cmdChans, d, order, |order|);
      ServeWorkers(d, order);
      if d.sessionId in sessions {
        var sess := sessions[d.sessionId];
        sessions := sessions[d.sessionId := sess.(status := Running, startedAt := Some(now), activeBots := d.botCount)];
      }
      timers := timers + multiset{d.sessionId};
    }

    method ServeWorkers(d: Dispatch, order: seq<string>)
      requires order != []
      modifies `cmdChans, `published
      ensures cmdChans == SentAll(old(cmdChans), d, order, |order|)
      ensures published == old(published) + SpilledAll(old(cmdChans), d, order, |order|)
    {
      ghost var chans, before := cmdChans, published;
      var botsPerWorker := Quotient(d.botCount, |order|);
      var remainder := Remainder(d.botCount, |order|);
      var i := 0;
      while i < |order|
        invariant 0 <= i <= |order|
        invariant cmdChans == SentAll(chans, d, order, i)
        invariant published == before + SpilledAll(chans, d, order, i)
      {
        ServeWorker(d, order, i, botsPerWorker, remainder);
        i := i + 1;
      }
    }

    method ServeWorker(d: Dispatch, order: seq<string>, i: nat, botsPerWorker: int, remainder: int)
      requires i < |order| && botsPerWorker == Quotient(d.botCount, |order|) && remainder == Remainder(d.botCount, |order|)
      modifies `cmdChans, `published
      ensures cmdChans == Sent(old(cmdChans), order[i], CmdFor(d, order, i))
      ensures published == old(published) + Spilled(old(cmdChans), order[i], CmdFor(d, order, i))
    {
      var bots := botsPerWorker;
      if i < remainder {
        bots := bots + 1;
      }
      var cmd := Cmd("START", d.sessionId, d.targetUrl, bots, d.endpointType);
      assert cmd == CmdFor(d, order, i);
      SendCommand(order[i], cmd);
    }

    method SendCommand(id: string, cmd: Cmd)
      modifies `cmdChans, `published
      ensures cmdChans == Sent(old(cmdChans), id, cmd)
      ensures published == old(published) + Spilled(old(cmdChans), id, cmd)
    {
      if id in cmdChans {
        if |cmdChans[id]| < CHANNEL_CAPACITY {
          cmdChans := cmdChans[id := cmdChans[id] + [cmd]];
        } else {
          published := published + [("worker:" + id, cmd)];
        }
      }
    }

    method StopSession(sessionId: string, at: int)
      requires Valid() && now <= at
      modifies this
      ensures Valid() && View() == Step(old(View()), Stop(sessionId), at)
      ensures sessionId !in old(sessions) ==> cmdChans == old(cmdChans) && published == old(published)
      ensures sessionId in old(sessions) ==>
                && sessions == old(sessions)[sessionId := old(sessions)[sessionId].(status := Done, endedAt := Some(at))]
                && published == old(published) + [("worker:broadcast", Cmd("STOP", sessionId, "", 0, ""))]
                && cmdChans.Keys == old(cmdChans.Keys)
                && forall w :: w in cmdChans ==>
                     cmdChans[w] == if |old(cmdChans)[w]| < 64 then old(cmdChans)[w] + [Cmd("STOP", sessionId, "", 0, "")]
                                    else old(cmdChans)[w]
    {
      hide Invariant;
      now := at;
      if sessionId in sessions {
        sessions := sessions[sessionId := sessions[sessionId].(status := Done, endedAt := Some(now))];
        PushToAll(Cmd("STOP", sessionId, "", 0, ""));
        published := published + [("worker:broadcast", Cmd("STOP", sessionId, "", 0, ""))];
      }
      StepKeepsInvariant(old(View()), Stop(sessionId), at);
    }

    /** A command goes to every channel with room; the others miss it. */
    method PushToAll(cmd: Cmd)
      modifies `cmdChans
      ensures cmdChans == Pushed(old(cmdChans), cmd)
    {
      ghost var chans := cmdChans;
      var left := cmdChans.Keys;
      while left != {}
        invariant left <= cmdChans.Keys == chans.Keys
        invariant forall id :: id in left ==> cmdChans[id] == chans[id]
        invariant forall id :: id in chans && id !in left ==> cmdChans[id] == Pushed(chans, cmd)[id]
      {
        var id :| id in left;
        if |cmdChans[id]| < CHANNEL_CAPACITY {
          cmdChans := cmdChans[id := cmdChans[id] + [cmd]];
        }
        left := left - {id};
      }
    }

    /** The auto-stop goroutine after its sleep. */
    method AutoStop(sessionId: string, at: int)
      requires Valid() && Enabled(View(), TimerFires(sessionId), at)
      modifies this
      ensures Valid() && View() == Step(old(View()), TimerFires(sessionId), at)
    {
      hide Invariant;
      StopSession(sessionId, at);
      timers := timers - multiset{sessionId};
      StepKeepsInvariant(old(View()), TimerFires(sessionId), at);
    }

    /** Every poll makes a new channel; commands queued in the old one are lost. */
    method RegisterWorker(workerId: string, at: int)
      requires Valid() && now <= at
      modifies this
      ensures Valid() && View() == Step(old(View()), Register(workerId), at)
      ensures workers == old(workers)[workerId := WorkerInfo("", 0, 0, at)] && cmdChans == old(cmdChans)[workerId := []]
    {
      hide Invariant;
      now := at;
      workers := workers[workerId := WorkerInfo("", 0, 0, now)];
      cmdChans := cmdChans[workerId := []];
      StepKeepsInvariant(old(View()), Register(workerId), at);
    }

    method UpdateWorkerHeartbeat(hb: Heartbeat, at: int)
      requires Valid() && now <= at
      modifies this
      ensures Valid() && View() == Step(old(View()), Beat(hb), at)
      ensures hb.workerId in old(workers) ==>
                workers == old(workers)[hb.workerId := WorkerInfo(hb.sessionId, hb.activeBots, hb.ordersSent, at)]
      ensures hb.workerId !in old(workers) ==> workers == old(workers)
      ensures hb.sessionId == "" || hb.sessionId !in old(sessions) ==>
                sessions == old(sessions) && lastReportedOrders == old(lastReportedOrders)
      ensures hb.sessionId != "" && hb.sessionId in old(sessions) ==>
                var key := hb.workerId + ":" + hb.sessionId;
                var last := if key in old(lastReportedOrders) then old(lastReportedOrders)[key] else 0;
                var sess := old(sessions)[hb.sessionId];
                && lastReportedOrders == old(lastReportedOrders)[key := hb.ordersSent]
                && sessions == old(sessions)[hb.sessionId := sess.(
                     ordersSent := if hb.ordersSent > last then sess.ordersSent + (hb.ordersSent - last) else sess.ordersSent)]
    {
      hide Invariant;
      now := at;
      if hb.workerId in workers {
        workers := workers[hb.workerId := WorkerInfo(hb.sessionId, hb.activeBots, hb.ordersSent, now)];
      }
      if hb.sessionId != "" && hb.sessionId in sessions {
        CountReport(hb);
      }
      StepKeepsInvariant(old(View()), Beat(hb), at);
    }

    method CountReport(hb: Heartbeat)
      requires hb.sessionId in sessions
      modifies `sessions, `lastReportedOrders
      ensures var sess := old(sessions)[hb.sessionId];
              var delta := hb.ordersSent - LastReported(old(View()), hb.workerId, hb.sessionId);
              var credited := sess.(ordersSent := if delta > 0 then sess.ordersSent + delta else sess.ordersSent);
              sessions == old(sessions)[hb.sessionId := credited]
      ensures lastReportedOrders == old(lastReportedOrders)[ReportKey(hb.workerId, hb.sessionId) := hb.ordersSent]
    {
      var lastKey := hb.workerId + ":" + hb.sessionId;
      var lastReported := if lastKey in lastReportedOrders then lastReportedOrders[lastKey] else 0;
      var delta := hb.ordersSent - lastReported;
      if delta > 0 {
        var sess := sessions[hb.sessionId];
        sessions := sessions[hb.sessionId := sess.(ordersSent := sess.ordersSent + delta)];
      }
      lastReportedOrders := lastReportedOrders[lastKey := hb.ordersSent];
    }

    /** One tick of the reconcile loop: workers silent for more than a minute go, with their channels. */
    method ReconcileWorkers(at: int)
      requires Valid() && now <= at
      modifies this
      ensures Valid() && View() == Step(old(View()), Reconcile, at)
      ensures forall id :: id in workers <==> id in old(workers) && at - old(workers)[id].lastSeen <= 60
      ensures forall id :: id in workers ==> workers[id] == old(workers)[id]
      ensures forall id :: id in cmdChans <==>
                id in old(cmdChans) && !(id in old(workers) && at - old(workers)[id].lastSeen > 60)
      ensures forall id :: id in cmdChans ==> cmdChans[id] == old(cmdChans)[id]
    {
      hide Invariant;
      now := at;
      ghost var gone := TimedOut(View());
      ghost var before, chans := workers, cmdChans;
      var left := workers.Keys;
      while left != {}
        invariant left <= workers.Keys
        invariant unchanged(`sessions, `lastReportedOrders, `dispatches, `timers, `published) && now == at
        invariant workers == before - (gone - left)
        invariant cmdChans == chans - (gone - left)
      {
        var id :| id in left;
        left := left - {id};
        if now - workers[id].lastSeen > WORKER_TIMEOUT {
          workers := workers - {id};
          cmdChans := cmdChans - {id};
        }
      }
      assert gone - left == gone;
      StepKeepsInvariant(old(View()), Reconcile, at);
    }

    /** A poll takes the oldest command of its channel. */
    method ReceiveCommand(workerId: string, at: int) returns (cmd: Cmd)
      requires Valid() && Enabled(View(), Receive(workerId), at)
      modifies this
      ensures Valid() && View() == Step(old(View()), Receive(workerId), at)
      ensures [cmd] + cmdChans[workerId] == old(cmdChans[workerId])
    {
      hide Invariant;
      now := at;
      cmd := cmdChans[workerId][0];
      cmdChans := cmdChans[workerId := cmdChans[workerId][1..]];
      StepKeepsInvariant(old(View()), Receive(workerId), at);
    }
  }
}
