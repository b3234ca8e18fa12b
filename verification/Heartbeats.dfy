/** The order count of a session, kept from the cumulative counts that workers report. */
module Heartbeats {
  import opened Orchestration

  // ---- the key of a worker's last report -------------------------------------------------

  /** Two workers can share a key exactly when one's identifier followed by a colon begins the other's. */
  ghost predicate Confusable(w: string, v: string) {
    w + ":" <= v || v + ":" <= w
  }

  lemma EqualKeys(w: string, id: string, v: string, id': string)
    requires ReportKey(w, id) == ReportKey(v, id')
    ensures |w| < |v| ==> w + ":" <= v
    ensures w == v ==> id == id'
    ensures |w| == |v| ==> w == v
  {
    var key := ReportKey(w, id);
    assert w == key[..|w|] && v == key[..|v|] && key[|w|] == ':';
    assert id == key[|w| + 1..] && id' == key[|v| + 1..];
    if |w| < |v| {
      assert key[..|v|][..|w| + 1] == w + ":";
    }
  }

  lemma KeysCollideIff(w: string, v: string)
    requires w != v
    ensures (exists id, id' :: id != "" && id' != "" && ReportKey(w, id) == ReportKey(v, id')) <==> Confusable(w, v)
  {
    if w + ":" <= v { KeysCollide(w, v); }
    if v + ":" <= w { KeysCollide(v, w); }
    if id, id' :| id != "" && id' != "" && ReportKey(w, id) == ReportKey(v, id') {
      EqualKeys(w, id, v, id');
      EqualKeys(v, id', w, id);
    }
  }

  lemma KeysCollide(w: string, v: string)
    requires w + ":" <= v
    ensures exists id, id' :: id != "" && id' != "" && ReportKey(w, id) == ReportKey(v, id')
  {
    SharedKey(w, v, v[|w| + 1..]);
  }

  lemma SharedKey(w: string, v: string, rest: string)
    requires w + ":" <= v && rest == v[|w| + 1..]
    ensures ReportKey(w, rest + ":x") == ReportKey(v, "x") && rest + ":x" != "x" && rest + ":x" != ""
  {
    assert v == w + ":" + rest;
    assert |rest + ":x"| > |"x"|;
  }

  ghost predicate Colonless(w: string) {
    ':' !in w
  }

  lemma ColonlessNeverConfused(w: string, v: string)
    requires Colonless(w) && Colonless(v)
    ensures !Confusable(w, v)
  {
    if w + ":" <= v { PrefixHasColon(w, v); }
    if v + ":" <= w { PrefixHasColon(v, w); }
  }

  lemma PrefixHasColon(w: string, v: string)
    requires w + ":" <= v
    ensures ':' in v
  {
    assert v[|w|] == ':';
  }

  // ---- reports and increments ------------------------------------------------------------

  type Report = (string, int)

  /** The reports that the orchestrator takes for session `id` along the run, oldest first. */
  ghost function Accepted(s: State, run: seq<Timed>, id: string): seq<Report>
    requires IsRun(s, run)
    decreases |run|
  {
    if run == [] then []
    else ReportIn(s, run[0].0, id) + Accepted(Step(s, run[0].0, run[0].1), run[1..], id)
  }

  ghost function ReportIn(s: State, a: Action, id: string): seq<Report> {
    if a.Beat? && a.heartbeat.sessionId == id && id != "" && id in s.sessions
    then [(a.heartbeat.workerId, a.heartbeat.ordersSent)] else []
  }

  /** The counts reported by one worker. */
  function Of(reports: seq<Report>, w: string): seq<int> {
    if reports == [] then []
    else
      var last := reports[|reports| - 1];
      if last.0 == w then Of(reports[..|reports| - 1], w) + [last.1] else Of(reports[..|reports| - 1], w)
  }

  function Latest(base: int, counts: seq<int>): int {
    if counts == [] then base else counts[|counts| - 1]
  }

  function Rise(earlier: int, later: int): nat {
    if later > earlier then later - earlier else 0
  }

  /** All the positive increments of a sequence of counts that starts from `base`. */
  function Rises(base: int, counts: seq<int>): nat {
    if counts == [] then 0
    else
      var earlier := counts[..|counts| - 1];
      Rises(base, earlier) + Rise(Latest(base, earlier), counts[|counts| - 1])
  }

  /** The positive increments of the first k workers, each counted from its report in `s`. */
  ghost function SumRises(s: State, id: string, workers: seq<string>, reports: seq<Report>, k: nat): nat
    requires k <= |workers|
  {
    if k == 0 then 0
    else SumRises(s, id, workers, reports, k - 1) + Rises(LastReported(s, workers[k - 1], id), Of(reports, workers[k - 1]))
  }

  lemma OfSnoc(reports: seq<Report>, r: Report, w: string)
    ensures Of(reports + [r], w) == if r.0 == w then Of(reports, w) + [r.1] else Of(reports, w)
  {
    assert (reports + [r])[..|reports|] == reports;
  }

  lemma RisesSnoc(base: int, counts: seq<int>, c: int)
    ensures Rises(base, counts + [c]) == Rises(base, counts) + Rise(Latest(base, counts), c)
  {
    assert (counts + [c])[..|counts|] == counts;
  }

  ghost predicate Distinct(workers: seq<string>) {
    forall i, j :: 0 <= i < j < |workers| ==> workers[i] != workers[j]
  }

  lemma NotEarlier(workers: seq<string>, k: nat)
    requires k < |workers| && Distinct(workers)
    ensures workers[k] !in workers[..k] && workers[..k + 1] == workers[..k] + [workers[k]]
  {
  }

  /** A report raises the sum by its own rise and by nothing else. */
  lemma {:induction false} SumRisesSnoc(s: State, id: string, workers: seq<string>, reports: seq<Report>, r: Report, k: nat)
    requires k <= |workers| && Distinct(workers)
    ensures SumRises(s, id, workers, reports + [r], k)
            == SumRises(s, id, workers, reports, k)
               + if r.0 in workers[..k] then Rise(Latest(LastReported(s, r.0, id), Of(reports, r.0)), r.1) else 0
  {
    hide Distinct, Of, Rises, Rise, Latest, LastReported;
    if k > 0 {
      var w := workers[k - 1];
      NotEarlier(workers, k - 1);
      SumRisesSnoc(s, id, workers, reports, r, k - 1);
      OfSnoc(reports, r, w);
      RisesSnoc(LastReported(s, w, id), Of(reports, w), r.1);
    }
  }

  lemma {:induction false} NoReportsNoRises(s: State, id: string, workers: seq<string>, k: nat)
    requires k <= |workers|
    ensures SumRises(s, id, workers, [], k) == 0
  {
    if k > 0 { NoReportsNoRises(s, id, workers, k - 1); }
  }

  // ---- the count along a run -------------------------------------------------------------

  /** The workers of a run, each listed once and no two sharing a key. */
  ghost predicate IsRoster(workers: seq<string>, run: seq<Timed>) {
    && Distinct(workers)
    && (forall w, v :: w in workers && v in workers && w != v ==> !Confusable(w, v))
    && (forall i :: 0 <= i < |run| && run[i].0.Beat? ==> run[i].0.heartbeat.workerId in workers)
  }

  /** The session's count and the workers' last reports, given the reports since the state `s0`. */
  ghost predicate Counted(s0: State, s: State, id: string, workers: seq<string>, reports: seq<Report>) {
    && id in s.sessions
    && s.sessions[id].ordersSent == SumRises(s0, id, workers, reports, |workers|)
    && (forall w :: w in workers ==> LastReported(s, w, id) == Latest(LastReported(s0, w, id), Of(reports, w)))
  }

  lemma OtherReportsLeaveCount(s: State, hb: Heartbeat, id: string, w: string)
    requires hb.sessionId != id && (w != hb.workerId ==> !Confusable(w, hb.workerId))
    ensures LastReported(Heard(s, hb), w, id) == LastReported(s, w, id)
  {
    if ReportKey(w, id) == ReportKey(hb.workerId, hb.sessionId) {
      EqualKeys(w, id, hb.workerId, hb.sessionId);
      EqualKeys(hb.workerId, hb.sessionId, w, id);
    }
  }

  lemma OwnReport(s: State, hb: Heartbeat, w: string)
    requires hb.sessionId != "" && hb.sessionId in s.sessions && (w != hb.workerId ==> !Confusable(w, hb.workerId))
    ensures LastReported(Heard(s, hb), w, hb.sessionId)
            == if w == hb.workerId then hb.ordersSent else LastReported(s, w, hb.sessionId)
    ensures hb.sessionId in Heard(s, hb).sessions
    ensures Heard(s, hb).sessions[hb.sessionId].ordersSent
            == s.sessions[hb.sessionId].ordersSent + Rise(LastReported(s, hb.workerId, hb.sessionId), hb.ordersSent)
  {
    if ReportKey(w, hb.sessionId) == ReportKey(hb.workerId, hb.sessionId) {
      EqualKeys(w, hb.sessionId, hb.workerId, hb.sessionId);
      EqualKeys(hb.workerId, hb.sessionId, w, hb.sessionId);
    }
  }

  lemma OwnBeatCounted(s0: State, s: State, hb: Heartbeat, workers: seq<string>, reports: seq<Report>)
    requires Counted(s0, s, hb.sessionId, workers, reports) && hb.sessionId != ""
    requires hb.workerId in workers && Distinct(workers)
    requires forall w, v :: w in workers && v in workers && w != v ==> !Confusable(w, v)
    ensures Counted(s0, Heard(s, hb), hb.sessionId, workers, reports + [(hb.workerId, hb.ordersSent)])
  {
    var r := (hb.workerId, hb.ordersSent);
    SumRisesSnoc(s0, hb.sessionId, workers, reports, r, |workers|);
    assert workers[..|workers|] == workers;
    OwnReport(s, hb, hb.workerId);
    forall w | w in workers
      ensures LastReported(Heard(s, hb), w, hb.sessionId) == Latest(LastReported(s0, w, hb.sessionId), Of(reports + [r], w))
    {
      OwnReport(s, hb, w);
      OfSnoc(reports, r, w);
    }
  }

  lemma OtherBeatCounted(s0: State, s: State, hb: Heartbeat, id: string, workers: seq<string>, reports: seq<Report>)
    requires Counted(s0, s, id, workers, reports) && hb.sessionId != id && hb.workerId in workers
    requires forall w, v :: w in workers && v in workers && w != v ==> !Confusable(w, v)
    ensures Counted(s0, Heard(s, hb), id, workers, reports)
  {
    forall w | w in workers ensures LastReported(Heard(s, hb), w, id) == LastReported(s, w, id) {
      OtherReportsLeaveCount(s, hb, id, w);
    }
  }

  /** Only a report or a new start changes a session's count or the remembered reports. */
  ghost predicate SameCount(s: State, s': State, id: string) {
    && s'.lastReportedOrders == s.lastReportedOrders
    && (id in s'.sessions <==> id in s.sessions)
    && (id in s.sessions ==> s'.sessions[id].ordersSent == s.sessions[id].ordersSent)
  }

  lemma StopKeepsCount(s: State, stopped: string, id: string)
    ensures SameCount(s, Stopped(s, stopped), id)
  {
  }

  lemma DispatchKeepsCount(s: State, d: Dispatch, order: seq<string>, id: string)
    ensures SameCount(s, Dispatched(s, d, order), id)
  {
    RunningKeepsCount(s.sessions, d, s.now, id);
    var s' := Dispatched(s, d, order);
    assert s'.lastReportedOrders == s.lastReportedOrders;
    assert s'.sessions == s.sessions || s'.sessions == SetRunning(s.sessions, d, s.now);
  }

  lemma RunningKeepsCount(sessions: map<string, Session>, d: Dispatch, now: int, id: string)
    ensures var after := SetRunning(sessions, d, now);
            && (id in after <==> id in sessions)
            && (id in sessions ==> after[id].ordersSent == sessions[id].ordersSent)
  {
  }

  lemma OtherStepsKeepCounts(s: State, a: Action, at: int, id: string)
    requires Enabled(s, a, at) && !a.Beat? && !(a.Start? && a.session.sessionId == id)
    ensures SameCount(s, Step(s, a, at), id)
  {
    var t := s.(now := at);
    match a
    case Start(_, _) =>
    case RunDispatch(d, order) => DispatchKeepsCount(t, d, order, id);
    case Stop(stopped) => StopKeepsCount(t, stopped, id);
    case TimerFires(stopped) => StopKeepsCount(t.(timers := t.timers - multiset{stopped}), stopped, id);
    case Register(_) =>
    case Reconcile =>
    case Receive(_) =>
  }

  lemma StepCounted(s0: State, s: State, a: Action, at: int, id: string, workers: seq<string>, reports: seq<Report>)
    requires Counted(s0, s, id, workers, reports) && id != ""
    requires Enabled(s, a, at) && !(a.Start? && a.session.sessionId == id)
    requires IsRoster(workers, [(a, at)])
    ensures Counted(s0, Step(s, a, at), id, workers, reports + ReportIn(s, a, id))
  {
    if a.Beat? {
      var hb, t := a.heartbeat, s.(now := at);
      assert [(a, at)][0].0.heartbeat.workerId in workers;
      assert Counted(s0, t, id, workers, reports);
      if hb.sessionId == id {
        OwnBeatCounted(s0, t, hb, workers, reports);
      } else {
        OtherBeatCounted(s0, t, hb, id, workers, reports);
        assert reports + [] == reports;
      }
    } else {
      OtherStepsKeepCounts(s, a, at, id);
      assert reports + [] == reports;
    }
  }

  lemma RosterParts(workers: seq<string>, run: seq<Timed>, id: string)
    requires run != [] && IsRoster(workers, run) && NoStartOf(run, id)
    ensures IsRoster(workers, [(run[0].0, run[0].1)]) && IsRoster(workers, run[1..]) && NoStartOf(run[1..], id)
  {
  }

  lemma {:induction false} RunCounted(s0: State, s: State, run: seq<Timed>, id: string, workers: seq<string>,
                                      reports: seq<Report>)
    requires Counted(s0, s, id, workers, reports) && id != ""
    requires IsRun(s, run) && NoStartOf(run, id) && IsRoster(workers, run)
    ensures Counted(s0, After(s, run), id, workers, reports + Accepted(s, run, id))
    decreases |run|
  {
    if run == [] {
      assert reports + [] == reports;
    } else {
      var a, at, rest := run[0].0, run[0].1, run[1..];
      var s', more := Step(s, a, at), ReportIn(s, a, id);
      RosterParts(workers, run, id);
      StepCounted(s0, s, a, at, id, workers, reports);
      RunCounted(s0, s', rest, id, workers, reports + more);
      var later := Accepted(s', rest, id);
      assert reports + (more + later) == (reports + more) + later;
    }
  }

  /** From the start of a session on, its count is the sum over the workers of all positive
      increments of their reports, each counted from what the worker last reported under this
      identifier before: zero for a new identifier, the old count for a session that is re-created. */
  lemma CountSinceStart(s: State, start: Timed, run: seq<Timed>, workers: seq<string>)
    requires start.0.Start? && start.0.session.sessionId != ""
    requires IsRun(s, [start] + run) && NoStartOf(run, start.0.session.sessionId) && IsRoster(workers, run)
    ensures var id, begun, end := start.0.session.sessionId, Step(s, start.0, start.1), After(s, [start] + run);
            && ([start] + run)[1..] == run
            && id in end.sessions
            && end.sessions[id].ordersSent == SumRises(s, id, workers, Accepted(begun, run, id), |workers|)
  {
    var id, begun := start.0.session.sessionId, Step(s, start.0, start.1);
    assert ([start] + run)[1..] == run;
    NoReportsNoRises(s, id, workers, |workers|);
    assert Counted(s, begun, id, workers, []);
    RunCounted(s, begun, run, id, workers, []);
    assert [] + Accepted(begun, run, id) == Accepted(begun, run, id);
  }

  // ---- a new session ---------------------------------------------------------------------

  ghost predicate Unreported(s: State, id: string, workers: seq<string>) {
    id !in s.sessions && forall w :: w in workers ==> ReportKey(w, id) !in s.lastReportedOrders
  }

  lemma StepUnreported(s: State, a: Action, at: int, id: string, workers: seq<string>)
    requires Unreported(s, id, workers) && Enabled(s, a, at)
    requires !(a.Start? && a.session.sessionId == id) && IsRoster(workers, [(a, at)])
    ensures Unreported(Step(s, a, at), id, workers)
  {
    if a.Beat? {
      var hb := a.heartbeat;
      assert [(a, at)][0].0.heartbeat.workerId in workers;
      if hb.sessionId in s.sessions {
        forall w | w in workers ensures ReportKey(w, id) != ReportKey(hb.workerId, hb.sessionId) {
          if ReportKey(w, id) == ReportKey(hb.workerId, hb.sessionId) {
            EqualKeys(w, id, hb.workerId, hb.sessionId);
            EqualKeys(hb.workerId, hb.sessionId, w, id);
          }
        }
      }
    } else {
      OtherStepsKeepCounts(s, a, at, id);
    }
  }

  lemma {:induction false} RunUnreported(s: State, run: seq<Timed>, id: string, workers: seq<string>)
    requires Unreported(s, id, workers) && IsRun(s, run) && NoStartOf(run, id) && IsRoster(workers, run)
    ensures Unreported(After(s, run), id, workers)
    decreases |run|
  {
    if run != [] {
      RosterParts(workers, run, id);
      StepUnreported(s, run[0].0, run[0].1, id, workers);
      RunUnreported(Step(s, run[0].0, run[0].1), run[1..], id, workers);
    }
  }

  /** The positive increments of the first k workers, from zero. */
  function Increments(workers: seq<string>, reports: seq<Report>, k: nat): nat
    requires k <= |workers|
  {
    if k == 0 then 0 else Increments(workers, reports, k - 1) + Rises(0, Of(reports, workers[k - 1]))
  }

  function LastReports(workers: seq<string>, reports: seq<Report>, k: nat): int
    requires k <= |workers|
  {
    if k == 0 then 0 else LastReports(workers, reports, k - 1) + Latest(0, Of(reports, workers[k - 1]))
  }

  lemma {:induction false} UnreportedSum(s: State, id: string, workers: seq<string>, reports: seq<Report>, k: nat)
    requires k <= |workers| && Unreported(s, id, workers)
    ensures SumRises(s, id, workers, reports, k) == Increments(workers, reports, k)
  {
    if k > 0 { UnreportedSum(s, id, workers, reports, k - 1); }
  }

  /** A session started once: its count is the sum of all positive increments. */
  lemma NewSessionCount(before: seq<Timed>, start: Timed, run: seq<Timed>, workers: seq<string>)
    requires start.0.Start? && start.0.session.sessionId != ""
    requires IsRun(INITIAL, before) && IsRun(After(INITIAL, before), [start] + run)
    requires NoStartOf(before, start.0.session.sessionId) && NoStartOf(run, start.0.session.sessionId)
    requires IsRoster(workers, before) && IsRoster(workers, run)
    ensures var id, s := start.0.session.sessionId, After(INITIAL, before);
            var end := After(s, [start] + run);
            && ([start] + run)[1..] == run
            && id in end.sessions
            && end.sessions[id].ordersSent
               == Increments(workers, Accepted(Step(s, start.0, start.1), run, id), |workers|)
  {
    var id, s := start.0.session.sessionId, After(INITIAL, before);
    RunUnreported(INITIAL, before, id, workers);
    CountSinceStart(s, start, run, workers);
    UnreportedSum(s, id, workers, Accepted(Step(s, start.0, start.1), run, id), |workers|);
  }

  // ---- when the count is right -----------------------------------------------------------

  /** From the start of the service: a session started once, and reports from the listed workers only. */
  ghost predicate StartedOnce(workers: seq<string>, before: seq<Timed>, start: Timed, run: seq<Timed>) {
    && start.0.Start? && start.0.session.sessionId != ""
    && IsRun(INITIAL, before) && IsRun(After(INITIAL, before), [start] + run)
    && NoStartOf(before, start.0.session.sessionId) && NoStartOf(run, start.0.session.sessionId)
    && Reporters(workers, before) && Reporters(workers, run)
  }

  ghost predicate Reporters(workers: seq<string>, run: seq<Timed>) {
    forall i :: 0 <= i < |run| && run[i].0.Beat? ==> run[i].0.heartbeat.workerId in workers
  }

  /** The session's count at the end is the sum of all positive increments reported. */
  ghost predicate CountIsRight(workers: seq<string>, before: seq<Timed>, start: Timed, run: seq<Timed>)
    requires StartedOnce(workers, before, start, run)
  {
    var id, s := start.0.session.sessionId, After(INITIAL, before);
    var end := After(s, [start] + run);
    assert ([start] + run)[1..] == run;
    && id in end.sessions
    && end.sessions[id].ordersSent == Increments(workers, Accepted(Step(s, start.0, start.1), run, id), |workers|)
  }

  ghost predicate NoneConfusable(workers: seq<string>) {
    forall w, v :: w in workers && v in workers && w != v ==> !Confusable(w, v)
  }

  /** Some run on which two workers with a shared key make the count wrong: the second worker's report
      for a new session is compared with the first one's for another. */
  lemma ConfusedCount(workers: seq<string>, w: string, v: string)
    returns (before: seq<Timed>, start: Timed, run: seq<Timed>)
    requires Distinct(workers) && w in workers && v in workers && w + ":" <= v
    ensures StartedOnce(workers, before, start, run) && !CountIsRight(workers, before, start, run)
  {
    var rest := v[|w| + 1..];
    var other := rest + ":x";
    SharedKey(w, v, rest);
    var first := (Start(Plain(other, 0), true), 0);
    start := (Start(Plain("x", 0), true), 0);
    before, run := [first, BeatOf(w, other, 5)], [BeatOf(v, "x", 5)];
    var s1 := Step(INITIAL, first.0, 0);
    var s2 := Step(s1, BeatOf(w, other, 5).0, 0);
    var s3 := Step(s2, start.0, 0);
    var s4 := Step(s3, BeatOf(v, "x", 5).0, 0);
    RunOfTwo(INITIAL, s1, s2, first, BeatOf(w, other, 5));
    RunOfTwo(s2, s3, s4, start, BeatOf(v, "x", 5));
    assert [start] + run == [start, BeatOf(v, "x", 5)];
    assert s4.sessions["x"].ordersSent == 0;
    OneReportCounts(workers, v, s3, 5);
  }

  lemma OneReportCounts(workers: seq<string>, v: string, s: State, n: nat)
    requires Distinct(workers) && v in workers && "x" in s.sessions && s.now == 0
    ensures IsRun(s, [BeatOf(v, "x", n)])
    ensures Increments(workers, Accepted(s, [BeatOf(v, "x", n)], "x"), |workers|) == n
  {
    var run := [BeatOf(v, "x", n)];
    var s' := Step(s, run[0].0, run[0].1);
    assert run[1..] == [] && IsRun(s', []);
    assert Accepted(s', [], "x") == [];
    assert Accepted(s, run, "x") == [] + [(v, n)];
    assert workers[..|workers|] == workers;
    IncrementsSnoc(workers, [], (v, n), |workers|);
    NoReportsNoIncrements(workers, |workers|);
  }

  /** The count of every session started once is right on every run if and only if no two of the workers
      can share a key. */
  lemma CountRightIff(workers: seq<string>)
    requires Distinct(workers)
    ensures (forall before, start, run :: StartedOnce(workers, before, start, run) ==> CountIsRight(workers, before, start, run))
            <==> NoneConfusable(workers)
  {
    if NoneConfusable(workers) {
      forall before, start, run | StartedOnce(workers, before, start, run)
        ensures CountIsRight(workers, before, start, run)
      {
        NewSessionCount(before, start, run, workers);
      }
    } else {
      var w, v :| w in workers && v in workers && w != v && Confusable(w, v);
      var before, start, run := ConfusedCount(workers, if w + ":" <= v then w else v, if w + ":" <= v then v else w);
    }
  }

  // ---- when a re-created session counts from zero ----------------------------------------

  lemma {:induction false} IncrementsSnoc(workers: seq<string>, reports: seq<Report>, r: Report, k: nat)
    requires k <= |workers| && Distinct(workers)
    ensures Increments(workers, reports + [r], k)
            == Increments(workers, reports, k) + if r.0 in workers[..k] then Rise(Latest(0, Of(reports, r.0)), r.1) else 0
  {
    hide Distinct, Of, Rises, Rise, Latest;
    if k > 0 {
      var w := workers[k - 1];
      NotEarlier(workers, k - 1);
      IncrementsSnoc(workers, reports, r, k - 1);
      OfSnoc(reports, r, w);
      RisesSnoc(0, Of(reports, w), r.1);
    }
  }

  lemma {:induction false} NoReportsNoIncrements(workers: seq<string>, k: nat)
    requires k <= |workers|
    ensures Increments(workers, [], k) == 0
  {
    if k > 0 { NoReportsNoIncrements(workers, k - 1); }
  }

  lemma {:induction false} NothingReportedSum(s: State, id: string, workers: seq<string>, reports: seq<Report>, k: nat)
    requires k <= |workers| && forall w :: w in workers ==> LastReported(s, w, id) == 0
    ensures SumRises(s, id, workers, reports, k) == Increments(workers, reports, k)
  {
    if k > 0 { NothingReportedSum(s, id, workers, reports, k - 1); }
  }

  /** One report of a worker counts differently from zero and from its old report if that is not zero. */
  lemma OldReportShows(s: State, id: string, workers: seq<string>, w: string) returns (reports: seq<Report>)
    requires Distinct(workers) && w in workers && LastReported(s, w, id) != 0
    ensures SumRises(s, id, workers, reports, |workers|) != Increments(workers, reports, |workers|)
  {
    var last := LastReported(s, w, id);
    var r := (w, if last > 0 then last else 0);
    reports := [] + [r];
    assert workers[..|workers|] == workers;
    SumRisesSnoc(s, id, workers, [], r, |workers|);
    NoReportsNoRises(s, id, workers, |workers|);
    IncrementsSnoc(workers, [], r, |workers|);
    NoReportsNoIncrements(workers, |workers|);
  }

  /** A session started in this state counts from zero, whatever is reported after, exactly when every
      worker's last report under its identifier is zero or missing. */
  lemma CountsFromZeroIff(s: State, id: string, workers: seq<string>)
    requires Distinct(workers)
    ensures (forall reports :: SumRises(s, id, workers, reports, |workers|) == Increments(workers, reports, |workers|))
            <==> forall w :: w in workers ==> LastReported(s, w, id) == 0
  {
    if forall w :: w in workers ==> LastReported(s, w, id) == 0 {
      forall reports ensures SumRises(s, id, workers, reports, |workers|) == Increments(workers, reports, |workers|) {
        NothingReportedSum(s, id, workers, reports, |workers|);
      }
    } else {
      var w :| w in workers && LastReported(s, w, id) != 0;
      var reports := OldReportShows(s, id, workers, w);
    }
  }

  // ---- the count against the last reports ------------------------------------------------

  /** Counts that start at zero or more and never go down. */
  ghost predicate NeverFalls(counts: seq<int>) {
    && (|counts| > 0 ==> counts[0] >= 0)
    && forall i :: 0 < i < |counts| ==> counts[i - 1] <= counts[i]
  }

  lemma {:induction false} RisesCoverLatest(counts: seq<int>)
    ensures Rises(0, counts) >= Latest(0, counts)
    ensures Rises(0, counts) == Latest(0, counts) <==> NeverFalls(counts)
  {
    if counts != [] {
      var earlier := counts[..|counts| - 1];
      RisesCoverLatest(earlier);
      if NeverFalls(earlier) && Latest(0, earlier) <= counts[|counts| - 1] {
        assert NeverFalls(counts);
      } else if NeverFalls(counts) {
        assert NeverFalls(earlier);
        assert |counts| > 1 ==> counts[|counts| - 2] == earlier[|earlier| - 1];
      }
    }
  }

  /** The count is never below the sum of the last reports, and equals it exactly when no worker's
      report ever went down. */
  lemma {:induction false} IncrementsExactIff(workers: seq<string>, reports: seq<Report>, k: nat)
    requires k <= |workers|
    ensures Increments(workers, reports, k) >= LastReports(workers, reports, k)
    ensures Increments(workers, reports, k) == LastReports(workers, reports, k)
            <==> forall i :: 0 <= i < k ==> NeverFalls(Of(reports, workers[i]))
  {
    if k > 0 {
      IncrementsExactIff(workers, reports, k - 1);
      RisesCoverLatest(Of(reports, workers[k - 1]));
    }
  }

  // ---- where the simple reading fails ----------------------------------------------------

  function Plain(id: string, now: int): Session {
    NewSession(id, "sub", "url", "ws", 1, 1, now)
  }

  function BeatOf(w: string, id: string, n: int): Timed {
    (Beat(Heartbeat(w, id, 0, n)), 0)
  }

  /** A session re-created under its old identifier starts at zero, but reports are still counted
      from the old ones: after a report of 10, a re-creation and a report of 12 it holds 2. */
  lemma RecreatedSessionStartsShort()
    ensures var start := (Start(Plain("s", 0), true), 0);
            var run := [start, BeatOf("w", "s", 10), start, BeatOf("w", "s", 12)];
            IsRun(INITIAL, run) && "s" in After(INITIAL, run).sessions && After(INITIAL, run).sessions["s"].ordersSent == 2
  {
    var start := (Start(Plain("s", 0), true), 0);
    var s1 := Step(INITIAL, start.0, 0);
    var s2 := Step(s1, BeatOf("w", "s", 10).0, 0);
    var s3 := Step(s2, start.0, 0);
    var s4 := Step(s3, BeatOf("w", "s", 12).0, 0);
    assert LastReported(s3, "w", "s") == 10;
    RunOfFour(INITIAL, s1, s2, s3, s4, start, BeatOf("w", "s", 10), start, BeatOf("w", "s", 12));
  }

  /** Two workers whose keys collide lose orders: "a" for session "b:c" and "a:b" for session "c". */
  lemma CollidingKeysLoseOrders()
    ensures var first, second := (Start(Plain("b:c", 0), true), 0), (Start(Plain("c", 0), true), 0);
            var run := [first, second, BeatOf("a", "b:c", 5), BeatOf("a:b", "c", 5)];
            IsRun(INITIAL, run) && "c" in After(INITIAL, run).sessions && After(INITIAL, run).sessions["c"].ordersSent == 0
  {
    var first, second := (Start(Plain("b:c", 0), true), 0), (Start(Plain("c", 0), true), 0);
    var s1 := Step(INITIAL, first.0, 0);
    var s2 := Step(s1, second.0, 0);
    var s3 := Step(s2, BeatOf("a", "b:c", 5).0, 0);
    var s4 := Step(s3, BeatOf("a:b", "c", 5).0, 0);
    assert ReportKey("a", "b:c") == ReportKey("a:b", "c") == "a:b:c";
    RunOfFour(INITIAL, s1, s2, s3, s4, first, second, BeatOf("a", "b:c", 5), BeatOf("a:b", "c", 5));
  }

  lemma RunOfTwo(s0: State, s1: State, s2: State, a: Timed, b: Timed)
    requires Enabled(s0, a.0, a.1) && s1 == Step(s0, a.0, a.1)
    requires Enabled(s1, b.0, b.1) && s2 == Step(s1, b.0, b.1)
    ensures IsRun(s0, [a, b]) && After(s0, [a, b]) == s2
  {
    assert [a, b][1..] == [b] && [b][1..] == [];
    assert IsRun(s2, []) && IsRun(s1, [b]);
    assert After(s1, [b]) == s2;
  }

  lemma RunOfFour(s0: State, s1: State, s2: State, s3: State, s4: State, a: Timed, b: Timed, c: Timed, d: Timed)
    requires Enabled(s0, a.0, a.1) && s1 == Step(s0, a.0, a.1)
    requires Enabled(s1, b.0, b.1) && s2 == Step(s1, b.0, b.1)
    requires Enabled(s2, c.0, c.1) && s3 == Step(s2, c.0, c.1)
    requires Enabled(s3, d.0, d.1) && s4 == Step(s3, d.0, d.1)
    ensures IsRun(s0, [a, b, c, d]) && After(s0, [a, b, c, d]) == s4
  {
    assert [a, b, c, d][1..] == [b, c, d] && [b, c, d][1..] == [c, d] && [c, d][1..] == [d] && [d][1..] == [];
    assert IsRun(s4, []) && IsRun(s3, [d]) && IsRun(s2, [c, d]) && IsRun(s1, [b, c, d]);
    assert After(s3, [d]) == s4 && After(s2, [c, d]) == s4 && After(s1, [b, c, d]) == s4;
  }
}
