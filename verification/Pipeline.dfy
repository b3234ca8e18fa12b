/** From the event stream to the published snapshots: what a publishing tick publishes while the
    consumer runs, in terms of the verdicts on the session's own history. */
module Pipeline {
  import opened Events
  import opened Validation
  import opened Consuming
  import P = Publishing
  import M = SessionMetricsModel

  /** The samples that the consumer brought in during a run, in order. */
  function Brought(actions: seq<P.Action>): seq<Sample>
  {
    if actions == [] then [] else SampleIn(actions[0]) + Brought(actions[1..])
  }

  function SampleIn(a: P.Action): seq<Sample> {
    if a.Find? then [Sample(a.session, a.latency, a.violation)] else []
  }

  /** The counters are those of the first n samples. */
  ghost predicate CountsFirst(samples: seq<Sample>, n: nat, session: string, total: int, violations: int) {
    && n <= |samples|
    && total == |LatenciesOf(samples[..n], session)|
    && violations == ViolationsOf(samples[..n], session)
  }

  ghost predicate FromPrefix(samples: seq<Sample>, snap: P.Snapshot) {
    exists n: nat :: CountsFirst(samples, n, snap.session, snap.total, snap.violations)
  }

  /** All samples have landed, except the one the consumer holds. */
  function Landed(s: P.State, samples: seq<Sample>): nat {
    if s.consumer.Found? && samples != [] then |samples| - 1 else |samples|
  }

  ghost predicate Follows(s: P.State, samples: seq<Sample>) {
    && (s.consumer.Found? ==>
          && samples != []
          && samples[|samples| - 1] == Sample(s.consumer.session, s.consumer.latency, s.consumer.violation))
    && s.sessions.Keys == SessionsOf(samples)
    && (forall id :: id in s.sessions ==>
          CountsFirst(samples, Landed(s, samples), id, s.sessions[id].totalOrders, s.sessions[id].violations))
    && (forall snap :: snap in s.published ==> FromPrefix(samples, snap))
  }

  lemma CountsStay(samples: seq<Sample>, sample: Sample, n: nat, session: string, total: int, violations: int)
    requires CountsFirst(samples, n, session, total, violations)
    ensures CountsFirst(samples + [sample], n, session, total, violations)
  {
    assert (samples + [sample])[..n] == samples[..n];
  }

  lemma PrefixStays(samples: seq<Sample>, sample: Sample, snap: P.Snapshot)
    requires FromPrefix(samples, snap)
    ensures FromPrefix(samples + [sample], snap)
  {
    var n: nat :| CountsFirst(samples, n, snap.session, snap.total, snap.violations);
    CountsStay(samples, sample, n, snap.session, snap.total, snap.violations);
  }

  lemma FindFollows(s: P.State, session: string, latency: int, violation: bool, samples: seq<Sample>)
    requires Follows(s, samples) && P.Enabled(s, P.Find(session, latency, violation))
    ensures Follows(P.Step(s, P.Find(session, latency, violation)), samples + [Sample(session, latency, violation)])
  {
    hide LatenciesOf, ViolationsOf, SessionsOf;
    var sample := Sample(session, latency, violation);
    var s', samples' := P.Step(s, P.Find(session, latency, violation)), samples + [sample];
    SamplesSnoc(samples, sample);
    assert samples'[..|samples|] == samples;
    forall id | id in s'.sessions
      ensures CountsFirst(samples', |samples|, id, s'.sessions[id].totalOrders, s'.sessions[id].violations)
    {
      if id in s.sessions {
        CountsStay(samples, sample, |samples|, id, s.sessions[id].totalOrders, s.sessions[id].violations);
      } else {
        NoSamples(samples, id);
      }
    }
    forall snap | snap in s'.published ensures FromPrefix(samples', snap) {
      PrefixStays(samples, sample, snap);
    }
  }

  lemma LandFollows(s: P.State, draw: nat, samples: seq<Sample>)
    requires Follows(s, samples) && P.Enabled(s, P.Land(draw))
    ensures Follows(P.Step(s, P.Land(draw)), samples)
  {
    hide SessionsOf, M.Sampled;
    var s', n := P.Step(s, P.Land(draw)), |samples| - 1;
    var before, sample := samples[..n], samples[n];
    assert samples == before + [sample] && samples[..|samples|] == samples;
    SamplesSnoc(before, sample);
    forall id | id in s'.sessions
      ensures CountsFirst(samples, |samples|, id, s'.sessions[id].totalOrders, s'.sessions[id].violations)
    {
      assert CountsFirst(samples, n, id, s.sessions[id].totalOrders, s.sessions[id].violations);
    }
  }

  lemma ReadFollows(s: P.State, samples: seq<Sample>)
    requires Follows(s, samples) && P.Enabled(s, P.ReadCounters)
    ensures Follows(P.Step(s, P.ReadCounters), samples)
  {
    var s' := P.Step(s, P.ReadCounters);
    var snap := s'.published[|s.published|];
    assert s'.published == s.published + [snap];
    assert CountsFirst(samples, Landed(s, samples), snap.session, snap.total, snap.violations);
  }

  lemma StepFollows(s: P.State, a: P.Action, samples: seq<Sample>)
    requires Follows(s, samples) && P.Enabled(s, a)
    ensures Follows(P.Step(s, a), samples + SampleIn(a))
  {
    assert samples + [] == samples;
    match a
    case Find(session, latency, violation) => FindFollows(s, session, latency, violation, samples);
    case Land(draw) => LandFollows(s, draw, samples);
    case ReadCounters => ReadFollows(s, samples);
    case BeginTick =>
    case ReadPercentile(_) =>
    case EndTick =>
  }

  lemma {:induction false} RunFollows(s: P.State, actions: seq<P.Action>, samples: seq<Sample>)
    requires Follows(s, samples) && P.IsRun(s, actions)
    ensures Follows(P.After(s, actions), samples + Brought(actions))
    decreases |actions|
  {
    hide Follows, P.Step, P.Enabled, SampleIn;
    if actions == [] {
      assert samples + [] == samples;
    } else {
      StepFollows(s, actions[0], samples);
      RunFollows(P.Step(s, actions[0]), actions[1..], samples + SampleIn(actions[0]));
      assert samples + (SampleIn(actions[0]) + Brought(actions[1..])) == samples + SampleIn(actions[0]) + Brought(actions[1..]);
    }
  }

  // ---- in terms of the events ------------------------------------------------------------

  lemma {:induction false} PrefixOfStream(h: seq<Event>, n: nat, session: string)
    requires n <= |h|
    ensures |SamplesFor(h)| == |h| && SamplesFor(h)[..n] == SamplesFor(h[..n])
    ensures OnlySession(h[..n], session) <= OnlySession(h, session)
  {
    if n == |h| {
      assert h[..n] == h;
      StreamSize(h);
    } else {
      var init := h[..|h| - 1];
      PrefixOfStream(init, n, session);
      assert h[..n] == init[..n];
    }
  }

  lemma {:induction false} StreamSize(h: seq<Event>)
    ensures |SamplesFor(h)| == |h|
  {
    if h != [] { StreamSize(h[..|h| - 1]); }
  }

  /** The counters of a session after a part of its own history: how many events, how many flagged. */
  ghost predicate CountersOf(own: seq<Event>, total: int, violations: int) {
    total == |own| && violations == Trues(Verdicts(own))
  }

  /** End to end, over every run of consumer and publisher: whatever is published for a session is the
      number of events, and of those that the definition over the whole history flags, in an initial
      part of that session's own history. */
  lemma PublishedAreVerdicts(actions: seq<P.Action>, h: seq<Event>, i: nat)
    requires P.IsRun(P.INITIAL, actions) && Brought(actions) == SamplesFor(h)
    requires i < |P.After(P.INITIAL, actions).published|
    ensures var snap := P.After(P.INITIAL, actions).published[i];
            exists own :: own <= OnlySession(h, snap.session) && CountersOf(own, snap.total, snap.violations)
  {
    var end := P.After(P.INITIAL, actions);
    var snap := end.published[i];
    assert Follows(P.INITIAL, []);
    RunFollows(P.INITIAL, actions, []);
    assert [] + Brought(actions) == SamplesFor(h);
    assert snap in end.published && FromPrefix(SamplesFor(h), snap);
    var n: nat :| CountsFirst(SamplesFor(h), n, snap.session, snap.total, snap.violations);
    StreamSize(h);
    PrefixOfStream(h, n, snap.session);
    SamplesAreVerdicts(h[..n], snap.session);
    SessionsDoNotInterfere(h[..n], snap.session);
    assert CountersOf(OnlySession(h[..n], snap.session), snap.total, snap.violations);
  }
}
