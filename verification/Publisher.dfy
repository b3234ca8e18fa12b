/** The metrics publisher against the consumer: two goroutines, two kinds of mutex.

    The consumer finds the session's metrics under the publisher's mutex, releases it, and only
    then records under the metrics' own mutex. A publishing tick holds the publisher's mutex
    throughout but reads each percentile and the counters of a session in separate critical
    sections of the metrics' mutex. Each critical section is one step here. */
module Publishing {
  import opened SessionMetricsModel

  datatype Consumer =
    | Idle
    | Found(session: string, latency: int, violation: bool)  // metrics looked up, not yet recorded

  /** Whether a record of the session landed while a tick was reading it: after how many percentiles,
      on which latencies, and with which sample. The program keeps no such note; nothing depends on it. */
  datatype Tear =
    | Whole
    | Torn(done: nat, before: seq<int>, latency: int, draw: nat)

  /** What a tick has read of a session. */
  datatype Reading =
    | NotReading
    | Reading(session: string, read: seq<int>, tear: Tear)

  datatype Snapshot = Snapshot(session: string, p50: int, p90: int, p99: int, total: int, violations: int, tear: Tear)

  /** `landed` and `tornCount` count the records since the tick took the mutex and its torn snapshots. */
  datatype Publisher =
    | Waiting
    | Ticking(todo: set<string>, reading: Reading, landed: nat, tornCount: nat)

  datatype State = State(sessions: map<string, Metrics>, consumer: Consumer, publisher: Publisher, published: seq<Snapshot>)

  datatype Action =
    | Find(session: string, latency: int, violation: bool)
    | Land(draw: nat)
    | BeginTick
    | ReadPercentile(session: string)
    | ReadCounters
    | EndTick

  const INITIAL := State(map[], Idle, Waiting, [])

  const PERCENTILES: seq<real> := [0.50, 0.90, 0.99]

  predicate Enabled(s: State, a: Action) {
    match a
    case Find(_, _, _) => s.consumer.Idle? && s.publisher.Waiting?
    case Land(draw) =>
      s.consumer.Found? && s.consumer.session in s.sessions && draw <= s.sessions[s.consumer.session].totalOrders
    case BeginTick => s.publisher.Waiting?
    case ReadPercentile(session) =>
      s.publisher.Ticking? && session in s.sessions &&
      if s.publisher.reading.Reading? then s.publisher.reading.session == session && |s.publisher.reading.read| < 3
      else session in s.publisher.todo
    case ReadCounters =>
      s.publisher.Ticking? && s.publisher.reading.Reading? && |s.publisher.reading.read| == 3 &&
      s.publisher.reading.session in s.sessions
    case EndTick => s.publisher.Ticking? && s.publisher.reading.NotReading? && s.publisher.todo == {}
  }

  /** The percentile argument of the n-th read. */
  function Quantile(n: nat): (p: real)
    requires n < 3
    ensures 0.0 <= p <= 1.0
  {
    PERCENTILES[n]
  }

  /** The metrics of all sessions after the consumer's two critical sections. */
  function AfterFind(sessions: map<string, Metrics>, session: string): map<string, Metrics> {
    if session in sessions then sessions else sessions[session := NO_METRICS]
  }

  function AfterLand(sessions: map<string, Metrics>, session: string, latency: int, violation: bool, draw: nat)
    : map<string, Metrics>
    requires session in sessions
  {
    sessions[session := Recorded(sessions[session], latency, violation, draw)]
  }

  function Step(s: State, a: Action): State
    requires Enabled(s, a)
  {
    match a
    case Find(session, latency, violation) =>
      s.(sessions := AfterFind(s.sessions, session),
         consumer := Found(session, latency, violation))
    case Land(draw) =>
      var c := s.consumer;
      s.(sessions := AfterLand(s.sessions, c.session, c.latency, c.violation, draw),
         consumer := Idle,
         publisher := Noticing(s.publisher, c.session, s.sessions[c.session].latencies, c.latency, draw))
    case BeginTick =>
      s.(publisher := Ticking(s.sessions.Keys, NotReading, 0, 0))
    case ReadPercentile(session) =>
      var p := s.publisher;
      var before := if p.reading.Reading? then p.reading else Reading(session, [], Whole);
      var value := PercentileOf(s.sessions[session].latencies, Quantile(|before.read|));
      s.(publisher := p.(todo := p.todo - {session}, reading := before.(read := before.read + [value])))
    case ReadCounters =>
      var p := s.publisher;
      var m, r := s.sessions[p.reading.session], p.reading;
      s.(publisher := p.(reading := NotReading, tornCount := p.tornCount + if r.tear.Torn? then 1 else 0),
         published := s.published
           + [Snapshot(r.session, r.read[0], r.read[1], r.read[2], m.totalOrders, m.violations, r.tear)])
    case EndTick =>
      s.(publisher := Waiting)
  }

  /** A record that lands during a tick, and whether it tears the session being read. */
  function Noticing(p: Publisher, session: string, latencies: seq<int>, latency: int, draw: nat): Publisher {
    match p
    case Waiting => p
    case Ticking(todo, reading, landed, tornCount) =>
      Ticking(todo,
              if reading.Reading? && reading.session == session
              then reading.(tear := Torn(|reading.read|, latencies, latency, draw)) else reading,
              landed + 1, tornCount)
  }

  ghost predicate IsRun(s: State, actions: seq<Action>)
    decreases |actions|
  {
    actions == [] || (Enabled(s, actions[0]) && IsRun(Step(s, actions[0]), actions[1..]))
  }

  ghost function After(s: State, actions: seq<Action>): State
    requires IsRun(s, actions)
    decreases |actions|
  {
    if actions == [] then s else After(Step(s, actions[0]), actions[1..])
  }

  // ---- what every reachable state keeps --------------------------------------------------

  ghost predicate Sound(m: Metrics) {
    0 <= m.violations <= m.totalOrders && AllPositiveKept(m.latencies)
  }

  /** The values come from the session's latencies as they are now. */
  ghost predicate Current(read: seq<int>, latencies: seq<int>) {
    |read| <= 3 && forall i :: 0 <= i < |read| ==> read[i] == PercentileOf(latencies, Quantile(i))
  }

  /** The values were read from the latencies as they are now, or, before a tear, as they were. */
  ghost predicate ReadFrom(read: seq<int>, tear: Tear, now: seq<int>) {
    match tear
    case Whole => Current(read, now)
    case Torn(done, before, latency, draw) =>
      && AllPositiveKept(before) && now == Sampled(before, latency, draw)
      && done <= |read| <= 3
      && forall i :: 0 <= i < |read| ==> read[i] == PercentileOf(if i < done then before else now, Quantile(i))
  }

  /** The three percentiles of a snapshot are not in order. */
  predicate OutOfOrder(p50: int, p90: int, p99: int) {
    p50 > p90 || p90 > p99
  }

  /** Between two of the three reads the session's second positive latency landed, below the first. */
  predicate SecondLandedBelow(tear: Tear) {
    && tear.Torn? && 1 <= tear.done <= 2
    && |tear.before| == 1 && 0 < tear.latency < tear.before[0]
  }

  ghost predicate Consistent(s: State) {
    && (forall id :: id in s.sessions ==> Sound(s.sessions[id]))
    && (s.consumer.Found? ==> s.consumer.session in s.sessions)
    && (forall snap :: snap in s.published ==>
          && 0 <= snap.violations <= snap.total
          && (OutOfOrder(snap.p50, snap.p90, snap.p99) <==> SecondLandedBelow(snap.tear)))
    && (s.publisher.Ticking? ==>
          // at most one record lands while a tick holds the mutex, so at most one snapshot is torn
          && s.publisher.landed + (if s.consumer.Found? then 1 else 0) <= 1
          && s.publisher.tornCount + (if s.publisher.reading.Reading? && s.publisher.reading.tear.Torn? then 1 else 0)
             <= s.publisher.landed
          && s.publisher.todo <= s.sessions.Keys
          && (s.publisher.reading.Reading? ==>
                && s.publisher.reading.session in s.sessions
                && ReadFrom(s.publisher.reading.read, s.publisher.reading.tear,
                            s.sessions[s.publisher.reading.session].latencies)))
  }

  // ---- percentiles read across a record --------------------------------------------------

  /** The later percentile's rank, after one more latency, is above the earlier one's before it. */
  lemma RankGap(n: nat, m: nat, i: nat, j: nat)
    requires n >= 2 && (m == n + 1 || m == n == CAPACITY) && i < j < 3
    ensures Rank(n, Quantile(i)) < Rank(m, Quantile(j))
  {
    var x, y := (n - 1) as real * Quantile(i), (m - 1) as real * Quantile(j);
    assert x + 1.0 <= y by {
      if i == 0 && j == 1 { } else if i == 0 { } else { }
    }
    FloorMonotone(x + 1.0, y);
    assert (x + 1.0).Floor == x.Floor + 1;
  }

  lemma LowerOfTwo(a: int, x: int, j: nat)
    requires 1 <= j < 3
    ensures PercentileOf([a, x], Quantile(j)) == if x < a then x else a
    ensures PercentileOf([a], Quantile(j)) == PercentileOf([a], Quantile(0)) == a
  {
    assert [a, x][1..] == [x] && [x][1..] == [] && [a][1..] == [];
    assert SortInts([x]) == [x] && SortInts([a]) == [a];
    assert SortInts([a, x]) == InsertSorted([x], a);
    assert InsertSorted([x], a) == if a <= x then [a, x] else [x, a];
    assert Rank(2, Quantile(j)) == 0;
  }

  /** An earlier percentile read before a record exceeds a later one read after it exactly when the
      record was the second positive latency and below the first. */
  lemma PercentilesAcrossIff(s: seq<int>, x: int, draw: nat, i: nat, j: nat)
    requires AllPositiveKept(s) && i < j < 3
    ensures PercentileOf(s, Quantile(i)) > PercentileOf(Sampled(s, x, draw), Quantile(j)) <==> |s| == 1 && 0 < x < s[0]
  {
    var after := Sampled(s, x, draw);
    if x <= 0 || s == [] {
      PercentileMonotone(s, Quantile(i), Quantile(j));
      if x > 0 { PercentileIsOrderStatistic(after, Quantile(j)); }
    } else if |s| == 1 {
      assert s == [s[0]] && after == [s[0], x];
      LowerOfTwo(s[0], x, j);
      if i > 0 { LowerOfTwo(s[0], x, i); }
    } else {
      RankGap(|s|, |after|, i, j);
      PercentileIsOrderStatistic(s, Quantile(i));
      PercentileIsOrderStatistic(after, Quantile(j));
      HigherRankNotLower(s, x, draw, Rank(|s|, Quantile(i)), PercentileOf(s, Quantile(i)),
                         Rank(|after|, Quantile(j)), PercentileOf(after, Quantile(j)));
    }
  }

  /** Three reads are out of order exactly when such a record landed between two of them. */
  lemma ReadsOutOfOrderIff(read: seq<int>, tear: Tear, now: seq<int>)
    requires |read| == 3 && ReadFrom(read, tear, now)
    ensures OutOfOrder(read[0], read[1], read[2]) <==> SecondLandedBelow(tear)
  {
    match tear
    case Whole => CurrentIsOrdered(read, now);
    case Torn(done, before, latency, draw) =>
      PercentileMonotone(before, Quantile(0), Quantile(1));
      PercentileMonotone(before, Quantile(1), Quantile(2));
      PercentileMonotone(now, Quantile(0), Quantile(1));
      PercentileMonotone(now, Quantile(1), Quantile(2));
      PercentilesAcrossIff(before, latency, draw, 0, 1);
      PercentilesAcrossIff(before, latency, draw, 1, 2);
  }

  lemma CurrentIsOrdered(read: seq<int>, latencies: seq<int>)
    requires Current(read, latencies)
    ensures forall i, j :: 0 <= i < j < |read| ==> read[i] <= read[j]
  {
    forall i, j | 0 <= i < j < |read| ensures read[i] <= read[j] {
      PercentileMonotone(latencies, Quantile(i), Quantile(j));
    }
  }

  lemma StepKeepsConsistent(s: State, a: Action)
    requires Consistent(s) && Enabled(s, a)
    ensures Consistent(Step(s, a))
  {
    if a.ReadCounters? {
      CountersKeepConsistent(s);
    } else if a.Land? {
      LandKeepsConsistent(s, a.draw);
    } else {
      OthersKeepConsistent(s, a);
    }
  }

  lemma CountersKeepConsistent(s: State)
    requires Consistent(s) && Enabled(s, ReadCounters)
    ensures Consistent(Step(s, ReadCounters))
  {
    hide PercentileOf, Sampled;
    var r := s.publisher.reading;
    ReadsOutOfOrderIff(r.read, r.tear, s.sessions[r.session].latencies);
  }

  lemma LandKeepsConsistent(s: State, draw: nat)
    requires Consistent(s) && Enabled(s, Land(draw))
    ensures Consistent(Step(s, Land(draw)))
  {
    hide PercentileOf, Sampled, AllPositiveKept;
    SampledStaysPositive(s.sessions[s.consumer.session].latencies, s.consumer.latency, draw);
  }

  lemma OthersKeepConsistent(s: State, a: Action)
    requires Consistent(s) && Enabled(s, a) && !a.ReadCounters? && !a.Land?
    ensures Consistent(Step(s, a))
  {
    hide PercentileOf, Sampled;
  }

  lemma {:induction false} RunsStayConsistent(s: State, actions: seq<Action>)
    requires Consistent(s) && IsRun(s, actions)
    ensures Consistent(After(s, actions))
    decreases |actions|
  {
    if actions != [] {
      StepKeepsConsistent(s, actions[0]);
      RunsStayConsistent(Step(s, actions[0]), actions[1..]);
    }
  }

  function FillAccuracy(total: int, violations: int): real {
    if total > 0 then (total - violations) as real / total as real * 100.0 else 0.0
  }

  /** The accuracy is the share of events without a violation, in percent. */
  lemma AccuracyMeans(total: int, violations: int)
    requires 0 <= violations <= total
    ensures total > 0 ==> FillAccuracy(total, violations) * total as real == 100.0 * (total - violations) as real
    ensures FillAccuracy(total, violations) == 100.0 <==> total > 0 && violations == 0
    ensures FillAccuracy(total, violations) == 0.0 <==> violations == total
  {
    if total > 0 {
      QuotientTimes((total - violations) as real, total as real);
    }
  }

  lemma QuotientTimes(a: real, b: real)
    requires 0.0 <= a <= b && 0.0 < b
    ensures a / b * 100.0 * b == 100.0 * a
    ensures a / b * 100.0 == 100.0 <==> a == b
    ensures a / b * 100.0 == 0.0 <==> a == 0.0
  {
    assert a / b * b == a;
  }

  /** What a tick publishes of a session that no record touched while it was read: the percentiles at
      0.50, 0.90 and 0.99 and the counters, all of one moment. */
  lemma WholeSnapshot(s: State)
    requires Consistent(s) && Enabled(s, ReadCounters) && s.publisher.reading.tear.Whole?
    ensures var m := s.sessions[s.publisher.reading.session];
            Step(s, ReadCounters).published
            == s.published + [Snapshot(s.publisher.reading.session, PercentileOf(m.latencies, 0.50),
                                       PercentileOf(m.latencies, 0.90), PercentileOf(m.latencies, 0.99),
                                       m.totalOrders, m.violations, Whole)]
  {
  }

  // ---- a tick publishes every session once -----------------------------------------------

  function SnapshotsOf(published: seq<Snapshot>, session: string): nat {
    if published == [] then 0
    else SnapshotsOf(published[..|published| - 1], session) + if published[|published| - 1].session == session then 1 else 0
  }

  /** The session is still to be read, being read, or published since the tick began. */
  ghost predicate Covered(s: State, session: string, before: nat) {
    && s.publisher.Ticking?
    && !(s.publisher.reading.Reading? && s.publisher.reading.session in s.publisher.todo)
    && SnapshotsOf(s.published, session)
       + (if s.publisher.reading.Reading? && s.publisher.reading.session == session then 1 else 0)
       + (if session in s.publisher.todo then 1 else 0) == before + 1
  }

  predicate WithinTick(actions: seq<Action>) {
    forall i :: 0 <= i < |actions| ==> !actions[i].BeginTick? && !actions[i].EndTick?
  }

  lemma StepCovers(s: State, a: Action, session: string, before: nat)
    requires Covered(s, session, before) && Enabled(s, a) && !a.BeginTick? && !a.EndTick?
    ensures Covered(Step(s, a), session, before)
  {
    if a.ReadCounters? {
      assert Step(s, a).published[..|s.published|] == s.published;
    }
  }

  lemma {:induction false} RunCovers(s: State, actions: seq<Action>, session: string, before: nat)
    requires Covered(s, session, before) && IsRun(s, actions) && WithinTick(actions)
    ensures Covered(After(s, actions), session, before)
    decreases |actions|
  {
    if actions != [] {
      StepCovers(s, actions[0], session, before);
      RunCovers(Step(s, actions[0]), actions[1..], session, before);
    }
  }

  /** When a tick can end, it has published exactly one snapshot of every session known when it began. */
  lemma TickPublishesOnce(s: State, actions: seq<Action>, session: string)
    requires Enabled(s, BeginTick) && session in s.sessions
    requires IsRun(Step(s, BeginTick), actions) && WithinTick(actions)
    requires Enabled(After(Step(s, BeginTick), actions), EndTick)
    ensures SnapshotsOf(After(Step(s, BeginTick), actions).published, session) == SnapshotsOf(s.published, session) + 1
  {
    RunCovers(Step(s, BeginTick), actions, session, SnapshotsOf(s.published, session));
  }

  // ---- what is published -----------------------------------------------------------------

  /** Every fill accuracy ever published is a percentage. The percentiles of a snapshot are out of order
      exactly when the session's second positive latency landed between two of its reads and was below
      the first; within one tick at most one snapshot is torn. */
  lemma PublishedIsSound(actions: seq<Action>, i: nat)
    requires IsRun(INITIAL, actions) && i < |After(INITIAL, actions).published|
    ensures var snap := After(INITIAL, actions).published[i];
            && 0 <= snap.violations <= snap.total
            && 0.0 <= FillAccuracy(snap.total, snap.violations) <= 100.0
            && (OutOfOrder(snap.p50, snap.p90, snap.p99) <==> SecondLandedBelow(snap.tear))
    ensures After(INITIAL, actions).publisher.Ticking? ==>
              After(INITIAL, actions).publisher.tornCount <= After(INITIAL, actions).publisher.landed <= 1
  {
    RunsStayConsistent(INITIAL, actions);
    var snap := After(INITIAL, actions).published[i];
    assert snap in After(INITIAL, actions).published;
    if snap.total > 0 {
      RatioBounds((snap.total - snap.violations) as real, snap.total as real);
    }
  }

  lemma RatioBounds(a: real, b: real)
    requires 0.0 <= a <= b && 0.0 < b
    ensures 0.0 <= a / b <= 1.0
  {
  }

  lemma RunCons(s: State, a: Action, rest: seq<Action>)
    requires Enabled(s, a) && IsRun(Step(s, a), rest)
    ensures IsRun(s, [a] + rest) && After(s, [a] + rest) == After(Step(s, a), rest)
  {
    assert ([a] + rest)[1..] == rest;
  }

  lemma TornPercentiles()
    ensures PercentileOf([100], Quantile(0)) == 100 && PercentileOf([100, 1], Quantile(1)) == 1
  {
    assert [100][1..] == [] && [100, 1][1..] == [1] && [1][1..] == [];
    assert SortInts([1]) == [1] && SortInts([100, 1]) == InsertSorted([1], 100) == [1, 100];
  }

  lemma {:induction false} RunAppend(s: State, first: seq<Action>, second: seq<Action>)
    requires IsRun(s, first) && IsRun(After(s, first), second)
    ensures IsRun(s, first + second) && After(s, first + second) == After(After(s, first), second)
    decreases |first|
  {
    if first == [] {
      assert first + second == second;
    } else {
      RunAppend(Step(s, first[0]), first[1..], second);
      assert first + second == [first[0]] + (first[1..] + second);
      RunCons(s, first[0], first[1..] + second);
    }
  }

  function OneRecorded(session: string): State {
    State(map[session := Metrics([100], 1, 0)], Found(session, 1, false), Waiting, [])
  }

  lemma ReachOneRecorded(session: string) returns (run: seq<Action>)
    ensures IsRun(INITIAL, run) && After(INITIAL, run) == OneRecorded(session)
  {
    var s1 := Step(INITIAL, Find(session, 100, false));
    var s2 := Step(s1, Land(0));
    assert NO_METRICS.latencies + [100] == [100];
    assert s2.sessions == map[session := Metrics([100], 1, 0)];
    RunCons(s2, Find(session, 1, false), []);
    RunCons(s1, Land(0), [Find(session, 1, false)]);
    run := [Land(0)] + [Find(session, 1, false)];
    RunCons(INITIAL, Find(session, 100, false), run);
    run := [Find(session, 100, false)] + run;
  }

  lemma ReadAroundRecord(session: string) returns (run: seq<Action>)
    ensures IsRun(OneRecorded(session), run) && |After(OneRecorded(session), run).published| == 1
    ensures After(OneRecorded(session), run).published[0].p50 == 100
    ensures After(OneRecorded(session), run).published[0].p90 == 1
  {
    hide PercentileOf;
    var read := ReadPercentile(session);
    var s4 := Step(OneRecorded(session), BeginTick);
    var s5 := Step(s4, read);
    var s6 := Step(s5, Land(0));
    assert s6.sessions[session].latencies == [100, 1];
    var s7 := Step(s6, read);
    var s8 := Step(s7, read);
    TornPercentiles();
    RunCons(s8, ReadCounters, []);
    RunCons(s7, read, [ReadCounters]);
    RunCons(s6, read, [read] + [ReadCounters]);
    run := [read] + ([read] + [ReadCounters]);
    RunCons(s5, Land(0), run);
    run := [Land(0)] + run;
    RunCons(s4, read, run);
    run := [read] + run;
    RunCons(OneRecorded(session), BeginTick, run);
    run := [BeginTick] + run;
  }

  /** The bound is reached: a record that lands between the reads of p50 and p90 can publish a p50
      above the p90. */
  lemma TornSnapshot(session: string) returns (run: seq<Action>)
    ensures IsRun(INITIAL, run) && |After(INITIAL, run).published| == 1
    ensures After(INITIAL, run).published[0].p50 > After(INITIAL, run).published[0].p90
  {
    var first := ReachOneRecorded(session);
    var second := ReadAroundRecord(session);
    RunAppend(INITIAL, first, second);
    run := first + second;
  }
}
