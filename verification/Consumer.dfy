/** The telemetry consumer: each event is judged, handed to the database writer and recorded in the
    metrics of its session. The counters that get published are compared with the verdicts that a
    definition over the whole event history gives. */
module Consuming {
  import opened Events
  import opened Validation
  import BatchWriting
  import M = SessionMetricsModel
  import Publishing

  // ---- what the metrics are to hold ------------------------------------------------------

  datatype Sample = Sample(session: string, latency: int, violation: bool)

  /** The samples recorded for one session. */
  function LatenciesOf(samples: seq<Sample>, session: string): seq<int> {
    if samples == [] then []
    else
      var init, last := samples[..|samples| - 1], samples[|samples| - 1];
      if last.session == session then LatenciesOf(init, session) + [last.latency] else LatenciesOf(init, session)
  }

  function ViolationsOf(samples: seq<Sample>, session: string): nat {
    if samples == [] then 0
    else
      var init, last := samples[..|samples| - 1], samples[|samples| - 1];
      ViolationsOf(init, session) + if last.session == session && last.violation then 1 else 0
  }

  function SessionsOf(samples: seq<Sample>): set<string> {
    if samples == [] then {} else SessionsOf(samples[..|samples| - 1]) + {samples[|samples| - 1].session}
  }

  lemma SamplesSnoc(samples: seq<Sample>, s: Sample)
    ensures SessionsOf(samples + [s]) == SessionsOf(samples) + {s.session}
    ensures LatenciesOf(samples + [s], s.session) == LatenciesOf(samples, s.session) + [s.latency]
    ensures ViolationsOf(samples + [s], s.session) == ViolationsOf(samples, s.session) + if s.violation then 1 else 0
    ensures forall other :: other != s.session ==> LatenciesOf(samples + [s], other) == LatenciesOf(samples, other)
    ensures forall other :: other != s.session ==> ViolationsOf(samples + [s], other) == ViolationsOf(samples, other)
  {
    assert (samples + [s])[..|samples|] == samples;
  }

  lemma {:induction false} NoSamples(samples: seq<Sample>, session: string)
    requires session !in SessionsOf(samples)
    ensures LatenciesOf(samples, session) == [] && ViolationsOf(samples, session) == 0
  {
    if samples != [] { NoSamples(samples[..|samples| - 1], session); }
  }

  /** The metrics of all sessions: the table of the publisher, as its recording side uses it. */
  class MetricsTable {
    var sessions: map<string, M.SessionMetrics>
    ghost var samples: seq<Sample>
    ghost var owned: set<M.SessionMetrics>

    static ghost predicate Holds(m: M.SessionMetrics, samples: seq<Sample>, session: string)
      reads m
    {
      m.Valid() && m.stream == LatenciesOf(samples, session) && m.violations == ViolationsOf(samples, session)
    }

    /** Each session has its own metrics, which hold exactly the samples of the session. */
    ghost predicate Consistent()
      reads this, owned
    {
      && (forall s :: s in sessions ==> sessions[s] in owned && Holds(sessions[s], samples, s))
      && (forall s, t :: s in sessions && t in sessions && s != t ==> sessions[s] != sessions[t])
    }

    ghost predicate Valid()
      reads this, owned
    {
      Consistent() && sessions.Keys == SessionsOf(samples)
    }

    /** The table as a value, which is how a publishing tick sees it. */
    ghost function Table(): map<string, M.Metrics>
      reads this, owned
      requires Consistent()
    {
      map s | s in sessions :: sessions[s].View()
    }

    constructor ()
      ensures Valid() && samples == [] && owned == {}
    {
      sessions, samples, owned := map[], [], {};
    }

    /** The state between the two critical sections of Record. */
    ghost predicate Found(session: string)
      reads this, owned
    {
      Consistent() && sessions.Keys == SessionsOf(samples) + {session}
    }

    /** The first critical section: the session's metrics, created on first use. */
    method Find(session: string)
      requires Valid()
      modifies this`sessions, this`owned
      ensures Found(session) && sessions.Keys == old(sessions.Keys) + {session}
      ensures Table() == Publishing.AfterFind(old(Table()), session)
      ensures fresh(owned - old(owned)) && (sessions[session] in old(owned) || fresh(sessions[session]))
    {
      hide Holds, LatenciesOf, ViolationsOf, SessionsOf;
      if session !in sessions {
        var m := NewMetrics(samples, session);
        sessions := sessions[session := m];
        owned := owned + {m};
      }
    }

    static method NewMetrics(ghost samples: seq<Sample>, session: string) returns (m: M.SessionMetrics)
      requires session !in SessionsOf(samples)
      ensures fresh(m) && Holds(m, samples, session) && m.View() == M.NO_METRICS
    {
      NoSamples(samples, session);
      m := new M.SessionMetrics();
    }

    /** The second: the record lands in the metrics found. */
    method Land(sample: Sample, draw: nat)
      requires Found(sample.session) && draw <= |LatenciesOf(samples, sample.session)|
      modifies this`samples, sessions[sample.session]
      ensures Valid() && samples == old(samples) + [sample]
      ensures Table() == Publishing.AfterLand(old(Table()), sample.session, sample.latency, sample.violation, draw)
    {
      hide Holds, M.SessionMetrics.Valid, LatenciesOf, ViolationsOf, SessionsOf;
      SamplesSnoc(samples, sample);
      OthersHold(sample);
      LandIn(sessions[sample.session], samples, sample, draw);
      samples := samples + [sample];
    }

    static method LandIn(m: M.SessionMetrics, ghost before: seq<Sample>, sample: Sample, draw: nat)
      requires Holds(m, before, sample.session) && draw <= |LatenciesOf(before, sample.session)|
      modifies m
      ensures Holds(m, before + [sample], sample.session)
      ensures m.View() == M.Recorded(old(m.View()), sample.latency, sample.violation, draw)
    {
      hide M.Tracks;
      SamplesSnoc(before, sample);
      m.Record(sample.latency, sample.violation, draw);
    }

    lemma OthersHold(sample: Sample)
      requires Consistent()
      ensures forall s :: s in sessions && s != sample.session ==> Holds(sessions[s], samples + [sample], s)
    {
      hide M.SessionMetrics.Valid;
      SamplesSnoc(samples, sample);
    }

    method Record(sample: Sample, draw: nat)
      requires Valid() && draw <= |LatenciesOf(samples, sample.session)|
      modifies this, owned
      ensures Valid() && samples == old(samples) + [sample]
      ensures fresh(owned - old(owned))
    {
      Find(sample.session);
      Land(sample, draw);
    }

    /** What a publishing tick reads of a session; a session without metrics has none. */
    method Counters(session: string) returns (total: int, violations: int)
      requires Valid()
      ensures total == |LatenciesOf(samples, session)| && violations == ViolationsOf(samples, session)
    {
      if session in sessions {
        total, violations := sessions[session].totalOrders, sessions[session].violations;
      } else {
        NoSamples(samples, session);
        total, violations := 0, 0;
      }
    }
  }

  // ---- the stream of judged events -------------------------------------------------------

  /** The events as the consumer passes them on: each with its verdict. */
  ghost function Judged(h: seq<Event>): seq<Event> {
    if h == [] then []
    else
      var init, e := h[..|h| - 1], h[|h| - 1];
      Judged(init) + [e.(violation := Verdict(init, e))]
  }

  ghost function SamplesFor(h: seq<Event>): seq<Sample> {
    if h == [] then []
    else
      var init, e := h[..|h| - 1], h[|h| - 1];
      SamplesFor(init) + [Sample(e.sessionId, e.latencyNs, Verdict(init, e))]
  }

  lemma StreamSnoc(h: seq<Event>, e: Event)
    ensures Judged(h + [e]) == Judged(h) + [e.(violation := Verdict(h, e))]
    ensures SamplesFor(h + [e]) == SamplesFor(h) + [Sample(e.sessionId, e.latencyNs, Verdict(h, e))]
  {
    assert (h + [e])[..|h|] == h;
  }

  function Trues(verdicts: seq<bool>): nat {
    if verdicts == [] then 0 else Trues(verdicts[..|verdicts| - 1]) + if verdicts[|verdicts| - 1] then 1 else 0
  }

  lemma TruesSnoc(verdicts: seq<bool>, v: bool)
    ensures Trues(verdicts + [v]) == Trues(verdicts) + if v then 1 else 0
  {
    assert (verdicts + [v])[..|verdicts|] == verdicts;
  }

  lemma NothingYet(session: string)
    ensures LatenciesOf([], session) == [] && ViolationsOf([], session) == 0 && Trues([]) == 0
  {
  }

  /** The samples of a session count its events, and its violations are its verdicts. */
  lemma {:induction false} SamplesAreVerdicts(h: seq<Event>, session: string)
    ensures |LatenciesOf(SamplesFor(h), session)| == |OnlySession(h, session)|
    ensures ViolationsOf(SamplesFor(h), session) == Trues(VerdictsOn(h, session))
  {
    hide LatenciesOf, ViolationsOf, Trues, Verdict;
    if h == [] {
      NothingYet(session);
    } else {
      var init, e := h[..|h| - 1], h[|h| - 1];
      var verdict := Verdict(init, e);
      SamplesAreVerdicts(init, session);
      SamplesSnoc(SamplesFor(init), Sample(e.sessionId, e.latencyNs, verdict));
      if e.sessionId == session { TruesSnoc(VerdictsOn(init, session), verdict); }
      else { assert VerdictsOn(init, session) + [] == VerdictsOn(init, session); }
    }
  }

  /** The latencies sampled for a session are those of its events, in order. */
  lemma {:induction false} LatenciesAreEvents(h: seq<Event>, session: string)
    ensures |LatenciesOf(SamplesFor(h), session)| == |OnlySession(h, session)|
    ensures forall i :: 0 <= i < |OnlySession(h, session)| ==>
              LatenciesOf(SamplesFor(h), session)[i] == OnlySession(h, session)[i].latencyNs
  {
    hide Verdict;
    if h != [] {
      LatenciesAreEvents(h[..|h| - 1], session);
      var init, e := h[..|h| - 1], h[|h| - 1];
      SamplesSnoc(SamplesFor(init), Sample(e.sessionId, e.latencyNs, Verdict(init, e)));
    }
  }

  // ---- the consumer ----------------------------------------------------------------------

  class Consumer {
    const validator: Validator
    const writer: BatchWriting.TSWriter?<Event>  // null when the database could not be reached
    const metrics: MetricsTable

    ghost predicate Ready()
      reads this, validator, validator.owned, writer, metrics, metrics.owned
    {
      && validator.Valid() && metrics.Valid()
      && (writer != null ==> writer.Valid() && writer.adders == 1 && writer.waiting == 0)
    }

    /** Every event seen so far has passed all three stages, in order. */
    ghost predicate Valid()
      reads this, validator, validator.owned, writer, metrics, metrics.owned
    {
      && Ready()
      && (writer != null ==> writer.added == Judged(validator.history))
      && metrics.samples == SamplesFor(validator.history)
    }

    constructor (hasWriter: bool, hasPool: bool)
      ensures Valid() && validator.history == [] && (writer != null <==> hasWriter)
    {
      validator := new Validator();
      if hasWriter {
        writer := new BatchWriting.TSWriter<Event>(hasPool, 1);
      } else {
        writer := null;
      }
      metrics := new MetricsTable();
    }

    /** One event through the loop body; `timer` says whether the timer's flush runs while the adder is
        between its append and the flush it owes, and `random` is what the random source gives. */
    method Handle(e: Event, random: nat, timer: bool)
      requires Valid()
      modifies validator, validator.owned, writer, metrics, metrics.owned
      ensures Valid() && validator.history == old(validator.history) + [e]
      ensures metrics.samples == old(metrics.samples) + [Sample(e.sessionId, e.latencyNs, Verdict(old(validator.history), e))]
      ensures writer != null ==> writer.added == old(writer.added) + [e.(violation := Verdict(old(validator.history), e))]
      ensures writer != null ==> BatchWriting.Flatten(writer.handed) + writer.batch == Judged(validator.history)
      ensures fresh(validator.owned - old(validator.owned)) && fresh(metrics.owned - old(metrics.owned))
    {
      hide Consumer.Ready, Validator.Valid, MetricsTable.Valid, BatchWriting.TSWriter.Valid;
      hide Judged, SamplesFor;
      StreamSnoc(validator.history, e);
      var judged := Judge(e);
      if writer != null {
        Write(judged, timer);
      }
      Count(Sample(judged.sessionId, judged.latencyNs, judged.violation), random);
    }

    method Judge(e: Event) returns (judged: Event)
      requires Ready()
      modifies validator, validator.owned
      ensures Ready() && fresh(validator.owned - old(validator.owned))
      ensures validator.history == old(validator.history) + [e]
      ensures judged == e.(violation := Verdict(old(validator.history), e))
    {
      judged := validator.Validate(e);
    }

    method Write(e: Event, timer: bool)
      requires Ready() && writer != null
      modifies writer
      ensures Ready() && writer.added == old(writer.added) + [e]
      ensures BatchWriting.Flatten(writer.handed) + writer.batch == writer.added
    {
      hide Validator.Valid, MetricsTable.Valid;
      var shouldFlush := writer.Append(e);
      if timer {
        writer.Flush(false);
      }
      if shouldFlush {
        writer.Flush(true);
      }
    }

    /** The timer's flush at any other moment. */
    method Tick()
      requires Valid() && writer != null
      modifies writer
      ensures Valid() && validator.history == old(validator.history)
    {
      hide Validator.Valid, MetricsTable.Valid;
      writer.Flush(false);
    }

    /** The draw for the reservoir is reduced below the session's new total. */
    method Count(sample: Sample, random: nat)
      requires Ready()
      modifies metrics, metrics.owned
      ensures Ready() && fresh(metrics.owned - old(metrics.owned))
      ensures metrics.samples == old(metrics.samples) + [sample]
    {
      hide Validator.Valid, MetricsTable.Valid;
      var total, _ := metrics.Counters(sample.session);
      metrics.Record(sample, random % (total + 1));
    }

    /** End to end: the counters of a session are the number of its events and the number of those
        that the definition over the whole history flags, whatever was interleaved with them. */
    method Counters(session: string) returns (total: int, violations: int)
      requires metrics.Valid() && metrics.samples == SamplesFor(validator.history)
      ensures total == |OnlySession(validator.history, session)|
      ensures violations == Trues(Verdicts(OnlySession(validator.history, session)))
    {
      SamplesAreVerdicts(validator.history, session);
      SessionsDoNotInterfere(validator.history, session);
      total, violations := metrics.Counters(session);
    }
  }
}
