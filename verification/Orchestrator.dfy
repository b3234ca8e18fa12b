/** The bot orchestrator: sessions, registered workers with their command channels, dispatch
    goroutines and auto-stop timers. Every critical section of the orchestrator's mutex is one
    action; OrchestratorService takes the same steps on mutable fields. */
module Orchestration {
  import opened Sets

  datatype Option<T> = None | Some(value: T)

  datatype Status = Pending | Running | Stopping | Done | Error

  datatype Session = Session(
    sessionId: string,
    submissionId: string,
    status: Status,
    targetUrl: string,
    endpointType: string,
    botCount: int,
    durationSecs: int,
    activeBots: int,
    ordersSent: int,
    createdAt: int,
    startedAt: Option<int>,
    endedAt: Option<int>)

  datatype WorkerInfo = WorkerInfo(sessionId: string, activeBots: int, ordersSent: int, lastSeen: int)

  datatype Cmd = Cmd(command: string, sessionId: string, targetUrl: string, botCount: int, endpointType: string)

  /** The arguments of a dispatch goroutine. */
  datatype Dispatch = Dispatch(sessionId: string, targetUrl: string, endpointType: string, botCount: int, durationSecs: int)

  datatype Heartbeat = Heartbeat(workerId: string, sessionId: string, activeBots: int, ordersSent: int)

  /** `dispatches` and `timers` are the goroutines that have not run yet; a timer is named by the
      session it will stop. `published` is what went to Redis. `now` is the latest clock reading. */
  datatype State = State(
    sessions: map<string, Session>,
    workers: map<string, WorkerInfo>,
    cmdChans: map<string, seq<Cmd>>,
    lastReportedOrders: map<string, int>,
    dispatches: multiset<Dispatch>,
    timers: multiset<string>,
    published: seq<(string, Cmd)>,
    now: int)

  datatype Action =
    | Start(session: Session, redisOk: bool)
    | RunDispatch(dispatch: Dispatch, order: seq<string>)
    | Stop(sessionId: string)
    | TimerFires(sessionId: string)
    | Register(workerId: string)
    | Beat(heartbeat: Heartbeat)
    | Reconcile
    | Receive(workerId: string)

  const CHANNEL_CAPACITY := 64
  const WORKER_TIMEOUT := 60

  const INITIAL := State(map[], map[], map[], map[], multiset{}, multiset{}, [], 0)

  // ---- shares ----------------------------------------------------------------------------

  /** Go's division and remainder truncate toward zero. */
  function Quotient(a: int, n: int): int
    requires n > 0
  {
    if a >= 0 then a / n else -((-a) / n)
  }

  function Remainder(a: int, n: int): int
    requires n > 0
  {
    a - Quotient(a, n) * n
  }

  /** The bots sent to the i-th of n workers. */
  function Share(botCount: int, n: int, i: int): int
    requires n > 0
  {
    Quotient(botCount, n) + if i < Remainder(botCount, n) then 1 else 0
  }

  // ---- the actions -----------------------------------------------------------------------

  function NewSession(sessionId: string, submissionId: string, targetUrl: string, endpointType: string,
                      botCount: int, durationSecs: int, now: int): Session {
    Session(sessionId, submissionId, Pending, targetUrl, endpointType, botCount, durationSecs, 0, 0, now, None, None)
  }

  function DispatchOf(sess: Session): Dispatch {
    Dispatch(sess.sessionId, sess.targetUrl, sess.endpointType, sess.botCount, sess.durationSecs)
  }

  function StartCmd(d: Dispatch, bots: int): Cmd {
    Cmd("START", d.sessionId, d.targetUrl, bots, d.endpointType)
  }

  function StopCmd(sessionId: string): Cmd {
    Cmd("STOP", sessionId, "", 0, "")
  }

  /** The session is stored before Redis is asked; only then is the dispatch goroutine started. */
  function Started(s: State, sess: Session, redisOk: bool): State {
    s.(sessions := s.sessions[sess.sessionId := sess],
       dispatches := if redisOk then s.dispatches + multiset{DispatchOf(sess)} else s.dispatches)
  }

  function IndexIn(order: seq<string>, id: string): (i: nat)
    requires id in order
    ensures i < |order| && order[i] == id
  {
    if order[0] == id then 0 else 1 + IndexIn(order[1..], id)
  }

  /** What the worker at place i of the order is sent. */
  function CmdFor(d: Dispatch, order: seq<string>, i: nat): Cmd
    requires i < |order|
  {
    StartCmd(d, Share(d.botCount, |order|, i))
  }

  /** The channels after the first k workers of the order have been served. */
  function Served(chans: map<string, seq<Cmd>>, d: Dispatch, order: seq<string>, k: nat): map<string, seq<Cmd>>
    requires k <= |order|
  {
    map id | id in chans ::
      if id in order && IndexIn(order, id) < k && |chans[id]| < CHANNEL_CAPACITY
      then chans[id] + [CmdFor(d, order, IndexIn(order, id))] else chans[id]
  }

  /** The commands published for the first k workers of the order, those with full channels. */
  function Overflow(chans: map<string, seq<Cmd>>, d: Dispatch, order: seq<string>, k: nat): seq<(string, Cmd)>
    requires k <= |order|
  {
    if k == 0 then []
    else
      Overflow(chans, d, order, k - 1)
      + if order[k - 1] in chans && |chans[order[k - 1]]| >= CHANNEL_CAPACITY
        then [("worker:" + order[k - 1], CmdFor(d, order, k - 1))] else []
  }

  function SetRunning(sessions: map<string, Session>, d: Dispatch, now: int): map<string, Session> {
    if d.sessionId in sessions
    then sessions[d.sessionId := sessions[d.sessionId].(status := Running, startedAt := Some(now), activeBots := d.botCount)]
    else sessions
  }

  /** The order is the one in which the worker map happens to be iterated. */
  function Dispatched(s: State, d: Dispatch, order: seq<string>): State {
    var s' := s.(dispatches := s.dispatches - multiset{d});
    if order == [] then
      s'.(published := s.published + [("worker:broadcast", StartCmd(d, d.botCount))])
    else
      s'.(cmdChans := Served(s.cmdChans, d, order, |order|),
          published := s.published + Overflow(s.cmdChans, d, order, |order|),
          sessions := SetRunning(s.sessions, d, s.now),
          timers := s.timers + multiset{d.sessionId})
  }

  function Pushed(chans: map<string, seq<Cmd>>, cmd: Cmd): map<string, seq<Cmd>> {
    map id | id in chans :: if |chans[id]| < CHANNEL_CAPACITY then chans[id] + [cmd] else chans[id]
  }

  function Stopped(s: State, sessionId: string): State {
    if sessionId !in s.sessions then s
    else
      s.(sessions := s.sessions[sessionId := s.sessions[sessionId].(status := Done, endedAt := Some(s.now))],
         cmdChans := Pushed(s.cmdChans, StopCmd(sessionId)),
         published := s.published + [("worker:broadcast", StopCmd(sessionId))])
  }

  function Registered(s: State, workerId: string): State {
    s.(workers := s.workers[workerId := WorkerInfo("", 0, 0, s.now)],
       cmdChans := s.cmdChans[workerId := []])
  }

  function ReportKey(workerId: string, sessionId: string): string {
    workerId + ":" + sessionId
  }

  function LastReported(s: State, workerId: string, sessionId: string): int {
    var key := ReportKey(workerId, sessionId);
    if key in s.lastReportedOrders then s.lastReportedOrders[key] else 0
  }

  function Heard(s: State, hb: Heartbeat): State {
    var s' := if hb.workerId in s.workers
              then s.(workers := s.workers[hb.workerId := WorkerInfo(hb.sessionId, hb.activeBots, hb.ordersSent, s.now)])
              else s;
    if hb.sessionId == "" || hb.sessionId !in s.sessions then s'
    else
      var sess := s.sessions[hb.sessionId];
      var delta := hb.ordersSent - LastReported(s, hb.workerId, hb.sessionId);
      var credited := sess.(ordersSent := if delta > 0 then sess.ordersSent + delta else sess.ordersSent);
      s'.(sessions := s.sessions[hb.sessionId := credited],
          lastReportedOrders := s.lastReportedOrders[ReportKey(hb.workerId, hb.sessionId) := hb.ordersSent])
  }

  function TimedOut(s: State): set<string> {
    set id | id in s.workers && s.now - s.workers[id].lastSeen > WORKER_TIMEOUT
  }

  function Reconciled(s: State): State {
    s.(workers := s.workers - TimedOut(s), cmdChans := s.cmdChans - TimedOut(s))
  }

  // ---- runs ------------------------------------------------------------------------------

  /** What can happen next, at a clock reading that does not go back. */
  ghost predicate Enabled(s: State, a: Action, at: int) {
    s.now <= at &&
    match a
    case Start(sess, _) =>
      sess == NewSession(sess.sessionId, sess.submissionId, sess.targetUrl, sess.endpointType, sess.botCount,
                         sess.durationSecs, at)
    case RunDispatch(d, order) => d in s.dispatches && IsOrderOf(order, s.workers.Keys)
    case TimerFires(sessionId) => sessionId in s.timers
    case Receive(workerId) => workerId in s.cmdChans && s.cmdChans[workerId] != []
    case _ => true
  }

  ghost function Step(s: State, a: Action, at: int): State
    requires Enabled(s, a, at)
  {
    var t := s.(now := at);
    match a
    case Start(sess, redisOk) => Started(t, sess, redisOk)
    case RunDispatch(d, order) => Dispatched(t, d, order)
    case Stop(sessionId) => Stopped(t, sessionId)
    case TimerFires(sessionId) => Stopped(t.(timers := t.timers - multiset{sessionId}), sessionId)
    case Register(workerId) => Registered(t, workerId)
    case Beat(hb) => Heard(t, hb)
    case Reconcile => Reconciled(t)
    case Receive(workerId) => t.(cmdChans := t.cmdChans[workerId := t.cmdChans[workerId][1..]])
  }

  type Timed = (Action, int)

  ghost predicate IsRun(s: State, run: seq<Timed>)
    decreases |run|
  {
    run == [] || (Enabled(s, run[0].0, run[0].1) && IsRun(Step(s, run[0].0, run[0].1), run[1..]))
  }

  ghost function After(s: State, run: seq<Timed>): State
    requires IsRun(s, run)
    decreases |run|
  {
    if run == [] then s else After(Step(s, run[0].0, run[0].1), run[1..])
  }

  // ---- what every reachable state keeps --------------------------------------------------

  /** The record of a session at clock reading `now`. A session that was stopped while its dispatch
      waited runs again with its old end time, so a running session may have one. */
  ghost predicate GoodRecord(sess: Session, now: int) {
    match sess.status
    case Pending => sess.startedAt.None? && sess.endedAt.None?
    case Running => sess.startedAt.Some? && sess.startedAt.value <= now
    case Done => sess.endedAt.Some? && sess.endedAt.value <= now
                 && (sess.startedAt.Some? ==> sess.startedAt.value <= sess.endedAt.value)
    case _ => false
  }

  ghost predicate Invariant(s: State) {
    && GoodChannels(s.workers, s.cmdChans)
    && (forall id :: id in s.sessions ==> s.sessions[id].sessionId == id && GoodRecord(s.sessions[id], s.now))
    && (forall id :: id in s.sessions && s.sessions[id].status == Running ==> id in s.timers)
  }

  /** Exactly the registered workers have a channel, and no channel is over its capacity. */
  ghost predicate GoodChannels(workers: map<string, WorkerInfo>, chans: map<string, seq<Cmd>>) {
    workers.Keys == chans.Keys && forall id :: id in chans ==> |chans[id]| <= CHANNEL_CAPACITY
  }

  lemma InitialInvariant()
    ensures Invariant(INITIAL)
  {
  }

  lemma ClockKeepsInvariant(s: State, at: int)
    requires Invariant(s) && s.now <= at
    ensures Invariant(s.(now := at))
  {
  }

  lemma DispatchKeepsInvariant(s: State, d: Dispatch, order: seq<string>)
    requires Invariant(s)
    ensures Invariant(Dispatched(s, d, order))
  {
    ServedKeepsChannels(s.workers, s.cmdChans, d, order);
    SetRunningKeepsRecords(s.sessions, d, s.now);
    assert forall id :: id in s.timers ==> id in s.timers + multiset{d.sessionId};
  }

  lemma ServedKeepsChannels(workers: map<string, WorkerInfo>, chans: map<string, seq<Cmd>>, d: Dispatch, order: seq<string>)
    requires GoodChannels(workers, chans)
    ensures GoodChannels(workers, Served(chans, d, order, |order|))
  {
  }

  lemma SetRunningKeepsRecords(sessions: map<string, Session>, d: Dispatch, now: int)
    requires forall id :: id in sessions ==> sessions[id].sessionId == id && GoodRecord(sessions[id], now)
    ensures forall id :: id in SetRunning(sessions, d, now) ==>
              && id in sessions
              && SetRunning(sessions, d, now)[id].sessionId == id
              && GoodRecord(SetRunning(sessions, d, now)[id], now)
              && (id != d.sessionId ==> SetRunning(sessions, d, now)[id] == sessions[id])
  {
  }

  lemma StopKeepsInvariant(s: State, id: string, timers: multiset<string>)
    requires Invariant(s)
    requires forall other :: other != id && other in s.timers ==> other in timers
    ensures Invariant(Stopped(s.(timers := timers), id))
  {
  }

  lemma BeatKeepsInvariant(s: State, hb: Heartbeat)
    requires Invariant(s)
    ensures Invariant(Heard(s, hb))
  {
  }

  lemma StepKeepsInvariant(s: State, a: Action, at: int)
    requires Invariant(s) && Enabled(s, a, at)
    ensures Invariant(Step(s, a, at))
  {
    var t := s.(now := at);
    ClockKeepsInvariant(s, at);
    match a
    case Start(_, _) =>
    case RunDispatch(d, order) => DispatchKeepsInvariant(t, d, order);
    case Stop(id) =>
      assert t.(timers := t.timers) == t;
      StopKeepsInvariant(t, id, t.timers);
    case TimerFires(id) => StopKeepsInvariant(t, id, t.timers - multiset{id});
    case Register(_) =>
    case Beat(hb) => BeatKeepsInvariant(t, hb);
    case Reconcile =>
    case Receive(_) =>
  }

  /** Every reachable state has good session records, a stop timer for every running session, and
      the same keys for workers and channels. */
  lemma {:induction false} RunsKeepInvariant(s: State, run: seq<Timed>)
    requires Invariant(s) && IsRun(s, run)
    ensures Invariant(After(s, run))
    decreases |run|
  {
    if run != [] {
      StepKeepsInvariant(s, run[0].0, run[0].1);
      RunsKeepInvariant(Step(s, run[0].0, run[0].1), run[1..]);
    }
  }

  // ---- quiescence ------------------------------------------------------------------------

  function Work(s: State): nat {
    2 * |s.dispatches| + |s.timers|
  }

  predicate IsGoroutine(a: Action) {
    a.RunDispatch? || a.TimerFires?
  }

  function GoroutineSteps(run: seq<Timed>): nat {
    if run == [] then 0 else GoroutineSteps(run[1..]) + if IsGoroutine(run[0].0) then 1 else 0
  }

  ghost predicate NoStarts(run: seq<Timed>) {
    forall i :: 0 <= i < |run| ==> !run[i].0.Start?
  }

  lemma StepWorks(s: State, a: Action, at: int)
    requires Enabled(s, a, at) && !a.Start?
    ensures Work(Step(s, a, at)) <= Work(s) - if IsGoroutine(a) then 1 else 0
  {
  }

  /** Without new sessions the goroutines run out, and when none is left no session is running. */
  lemma {:induction false} Quiescence(s: State, run: seq<Timed>)
    requires Invariant(s) && IsRun(s, run) && NoStarts(run)
    ensures Work(After(s, run)) + GoroutineSteps(run) <= Work(s)
    ensures Work(After(s, run)) == 0 ==>
              forall id :: id in After(s, run).sessions ==> After(s, run).sessions[id].status != Running
    decreases |run|
  {
    if run != [] {
      StepWorks(s, run[0].0, run[0].1);
      StepKeepsInvariant(s, run[0].0, run[0].1);
      Quiescence(Step(s, run[0].0, run[0].1), run[1..]);
    }
  }

  // ---- when a stopped session stays stopped ----------------------------------------------

  ghost predicate NoStartOf(run: seq<Timed>, id: string) {
    forall i :: 0 <= i < |run| && run[i].0.Start? ==> run[i].0.session.sessionId != id
  }

  ghost predicate IsRunning(s: State, id: string) {
    id in s.sessions && s.sessions[id].status == Running
  }

  ghost predicate DispatchWaits(s: State, id: string) {
    exists d :: d in s.dispatches && d.sessionId == id
  }

  /** The session is not running, and no dispatch waits to set its record running. */
  ghost predicate AtRest(s: State, id: string) {
    !IsRunning(s, id) && (id in s.sessions ==> !DispatchWaits(s, id))
  }

  lemma StepKeepsAtRest(s: State, a: Action, at: int, id: string)
    requires Enabled(s, a, at) && AtRest(s, id) && !(a.Start? && a.session.sessionId == id)
    ensures AtRest(Step(s, a, at), id)
  {
    StepKeepsDispatches(s, a, at, id);
    if a.RunDispatch? {
      DispatchSetsOwnRecord(s, a.dispatch, a.order, at, id);
    } else {
      OnlyDispatchSetsRunning(s, a, at, id);
    }
  }

  lemma DispatchSetsOwnRecord(s: State, d: Dispatch, order: seq<string>, at: int, id: string)
    requires Enabled(s, RunDispatch(d, order), at)
    ensures var s' := Step(s, RunDispatch(d, order), at);
            && (id in s'.sessions <==> id in s.sessions)
            && (IsRunning(s', id) && !IsRunning(s, id) ==> id in s.sessions && DispatchWaits(s, id))
  {
  }

  lemma OnlyDispatchSetsRunning(s: State, a: Action, at: int, id: string)
    requires Enabled(s, a, at) && !a.RunDispatch? && !(a.Start? && a.session.sessionId == id)
    ensures id in Step(s, a, at).sessions <==> id in s.sessions
    ensures IsRunning(Step(s, a, at), id) ==> IsRunning(s, id)
  {
  }

  lemma StepKeepsDispatches(s: State, a: Action, at: int, id: string)
    requires Enabled(s, a, at) && !(a.Start? && a.session.sessionId == id)
    ensures DispatchWaits(Step(s, a, at), id) ==> DispatchWaits(s, id)
  {
    forall d | d in Step(s, a, at).dispatches && d.sessionId == id ensures d in s.dispatches {
    }
  }

  lemma {:induction false} StaysAtRest(s: State, run: seq<Timed>, id: string)
    requires IsRun(s, run) && NoStartOf(run, id) && AtRest(s, id)
    ensures !IsRunning(After(s, run), id)
    decreases |run|
  {
    if run != [] {
      StepKeepsAtRest(s, run[0].0, run[0].1, id);
      StaysAtRest(Step(s, run[0].0, run[0].1), run[1..], id);
    }
  }

  lemma DispatchSetsRunning(s: State, d: Dispatch) returns (run: seq<Timed>)
    requires d in s.dispatches && d.sessionId in s.sessions
    ensures IsRun(s, run) && NoStarts(run) && IsRunning(After(s, run), d.sessionId)
  {
    var joined := Step(s, Register(""), s.now);
    var order := Enumerate(joined.workers.Keys);
    assert "" in order;
    var dispatch := (RunDispatch(d, order), s.now);
    assert Enabled(joined, dispatch.0, dispatch.1);
    var done := Step(joined, dispatch.0, dispatch.1);
    assert IsRunning(done, d.sessionId);
    run := [(Register(""), s.now), dispatch];
    assert run[1..] == [dispatch] && [dispatch][1..] == [];
    assert IsRun(done, []) && IsRun(joined, [dispatch]);
    assert After(joined, [dispatch]) == After(done, []) == done;
  }

  /** A session that is not running can come to run without a new start of it exactly when a
      dispatch for its record still waits: stopping is final unless it came before the dispatch. */
  lemma RunsAgainIff(s: State, id: string)
    requires !IsRunning(s, id)
    ensures (exists run :: IsRun(s, run) && NoStartOf(run, id) && IsRunning(After(s, run), id))
            <==> id in s.sessions && DispatchWaits(s, id)
  {
    if id in s.sessions && DispatchWaits(s, id) {
      var d :| d in s.dispatches && d.sessionId == id;
      var run := DispatchSetsRunning(s, d);
      assert NoStartOf(run, id);
    } else {
      forall run | IsRun(s, run) && NoStartOf(run, id) ensures !IsRunning(After(s, run), id) {
        StaysAtRest(s, run, id);
      }
    }
  }
}
