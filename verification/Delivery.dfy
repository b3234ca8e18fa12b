/** What becomes of the commands queued for a worker: which steps lose them, and that otherwise they
    are received once, in the order in which they were sent. */
module Delivery {
  import opened Orchestration

  function Queue(s: State, w: string): seq<Cmd> {
    if w in s.cmdChans then s.cmdChans[w] else []
  }

  /** What the step takes out of the channel of w. */
  ghost function Taken(s: State, a: Action, w: string): seq<Cmd> {
    if a == Receive(w) && Queue(s, w) != [] then [s.cmdChans[w][0]] else []
  }

  /** What the action sends to the channel of w: a dispatch that reaches w its command with its share,
      a stop of a known session its STOP, each only if the channel has room. */
  function SentBy(s: State, a: Action, w: string): seq<Cmd> {
    if w !in s.cmdChans || |s.cmdChans[w]| >= CHANNEL_CAPACITY then []
    else
      match a
      case RunDispatch(d, order) => if w in order then [CmdFor(d, order, IndexIn(order, w))] else []
      case Stop(id) => if id in s.sessions then [StopCmd(id)] else []
      case TimerFires(id) => if id in s.sessions then [StopCmd(id)] else []
      case _ => []
  }

  /** What was queued is taken or still queued, in order, and what was sent is queued behind it. */
  ghost predicate Keeps(s: State, a: Action, at: int, w: string)
    requires Enabled(s, a, at)
  {
    Taken(s, a, w) + Queue(Step(s, a, at), w) == Queue(s, w) + SentBy(s, a, w)
  }

  /** The step replaces the channel of w or removes it. */
  ghost predicate Replaces(s: State, a: Action, at: int, w: string) {
    a == Register(w) || (a.Reconcile? && w in TimedOut(s.(now := at)))
  }

  lemma StopSends(s: State, id: string, w: string)
    ensures Queue(Stopped(s, id), w) == Queue(s, w) + SentBy(s, Stop(id), w)
    ensures SentBy(s, Stop(id), w)
            == if w in s.cmdChans && |s.cmdChans[w]| < 64 && id in s.sessions then [Cmd("STOP", id, "", 0, "")] else []
  {
    assert Queue(s, w) + [] == Queue(s, w);
  }

  lemma DispatchSends(s: State, d: Dispatch, order: seq<string>, w: string)
    ensures Queue(Dispatched(s, d, order), w) == Queue(s, w) + SentBy(s, RunDispatch(d, order), w)
    ensures SentBy(s, RunDispatch(d, order), w)
            == if w in s.cmdChans && |s.cmdChans[w]| < 64 && w in order
               then [Cmd("START", d.sessionId, d.targetUrl, Share(d.botCount, |order|, IndexIn(order, w)), d.endpointType)]
               else []
  {
    assert Queue(s, w) + [] == Queue(s, w);
    if w in s.cmdChans {
      ServedAt(s.cmdChans, d, order, w);
    }
  }

  lemma ServedAt(chans: map<string, seq<Cmd>>, d: Dispatch, order: seq<string>, w: string)
    requires w in chans
    ensures w in Served(chans, d, order, |order|)
    ensures Served(chans, d, order, |order|)[w]
            == if w in order && |chans[w]| < CHANNEL_CAPACITY
               then chans[w] + [CmdFor(d, order, IndexIn(order, w))] else chans[w]
  {
  }

  lemma ReceiveKeeps(s: State, id: string, at: int, w: string)
    requires Enabled(s, Receive(id), at)
    ensures Keeps(s, Receive(id), at, w)
  {
    if id == w {
      var queue := s.cmdChans[w];
      assert queue == [queue[0]] + queue[1..];
    }
    assert Queue(s, w) + [] == Queue(s, w);
  }

  lemma DispatchKeeps(s: State, d: Dispatch, order: seq<string>, at: int, w: string)
    requires Enabled(s, RunDispatch(d, order), at)
    ensures Keeps(s, RunDispatch(d, order), at, w)
  {
    DispatchSends(s.(now := at), d, order, w);
    assert [] + Queue(Step(s, RunDispatch(d, order), at), w) == Queue(Step(s, RunDispatch(d, order), at), w);
  }

  lemma StopKeeps(s: State, id: string, at: int, w: string)
    requires s.now <= at
    ensures Keeps(s, Stop(id), at, w)
    ensures id in s.timers ==> Keeps(s, TimerFires(id), at, w)
  {
    var t := s.(now := at);
    StopSends(t, id, w);
    assert [] + Queue(Step(s, Stop(id), at), w) == Queue(Step(s, Stop(id), at), w);
    if id in s.timers {
      StopSends(t.(timers := t.timers - multiset{id}), id, w);
      assert [] + Queue(Step(s, TimerFires(id), at), w) == Queue(Step(s, TimerFires(id), at), w);
    }
  }

  lemma QuietKeeps(s: State, a: Action, at: int, w: string)
    requires Enabled(s, a, at) && !Replaces(s, a, at, w) && (a.Start? || a.Register? || a.Beat? || a.Reconcile?)
    ensures Keeps(s, a, at, w)
  {
    var queue := Queue(s, w);
    assert Queue(Step(s, a, at), w) == queue;
    assert Taken(s, a, w) + queue == queue == queue + SentBy(s, a, w);
  }

  lemma OthersKeep(s: State, a: Action, at: int, w: string)
    requires Enabled(s, a, at) && !Replaces(s, a, at, w)
    ensures Keeps(s, a, at, w)
  {
    hide Keeps, Replaces;
    match a
    case RunDispatch(d, order) => DispatchKeeps(s, d, order, at, w);
    case Stop(id) => StopKeeps(s, id, at, w);
    case TimerFires(id) => StopKeeps(s, id, at, w);
    case Receive(id) => ReceiveKeeps(s, id, at, w);
    case Start(_, _) => QuietKeeps(s, a, at, w);
    case Register(_) => QuietKeeps(s, a, at, w);
    case Beat(_) => QuietKeeps(s, a, at, w);
    case Reconcile => QuietKeeps(s, a, at, w);
  }

  /** A step loses queued commands of a worker exactly when there are any and it registers the worker
      again, as every poll does, or removes it as timed out; every other step keeps them and queues
      exactly what its action sends. */
  lemma LosesIff(s: State, a: Action, at: int, w: string)
    requires Enabled(s, a, at)
    ensures !Keeps(s, a, at, w) <==> Queue(s, w) != [] && Replaces(s, a, at, w)
  {
    if Replaces(s, a, at, w) {
      assert Queue(Step(s, a, at), w) == [] && Taken(s, a, w) == [] && SentBy(s, a, w) == [];
      assert Taken(s, a, w) + Queue(Step(s, a, at), w) == [] && Queue(s, w) + SentBy(s, a, w) == Queue(s, w);
    } else {
      OthersKeep(s, a, at, w);
    }
  }

  // ---- whole runs ------------------------------------------------------------------------

  ghost predicate NeverReplaced(s: State, run: seq<Timed>, w: string)
    requires IsRun(s, run)
    decreases |run|
  {
    run == [] ||
    (!Replaces(s, run[0].0, run[0].1, w) && NeverReplaced(Step(s, run[0].0, run[0].1), run[1..], w))
  }

  /** The commands that w receives along the run. */
  ghost function Received(s: State, run: seq<Timed>, w: string): seq<Cmd>
    requires IsRun(s, run)
    decreases |run|
  {
    if run == [] then []
    else Taken(s, run[0].0, w) + Received(Step(s, run[0].0, run[0].1), run[1..], w)
  }

  /** The commands that the actions of the run send to the channel of w. */
  ghost function SentTo(s: State, run: seq<Timed>, w: string): seq<Cmd>
    requires IsRun(s, run)
    decreases |run|
  {
    if run == [] then []
    else SentBy(s, run[0].0, w) + SentTo(Step(s, run[0].0, run[0].1), run[1..], w)
  }

  /** As long as a worker's channel is not replaced, the commands that dispatches and stops send to it
      are received once, in order, or still queued. */
  lemma {:induction false} ReceivedInOrder(s: State, run: seq<Timed>, w: string)
    requires IsRun(s, run) && NeverReplaced(s, run, w)
    ensures Received(s, run, w) + Queue(After(s, run), w) == Queue(s, w) + SentTo(s, run, w)
    decreases |run|
  {
    if run == [] {
      assert Received(s, run, w) == [] && SentTo(s, run, w) == [];
    } else {
      var a, at, rest := run[0].0, run[0].1, run[1..];
      var s' := Step(s, a, at);
      OthersKeep(s, a, at, w);
      ReceivedInOrder(s', rest, w);
      Reassociate(Taken(s, a, w), Received(s', rest, w), Queue(After(s', rest), w), Queue(s', w), SentTo(s', rest, w),
                  Queue(s, w), SentBy(s, a, w));
    }
  }

  lemma Reassociate(taken: seq<Cmd>, received: seq<Cmd>, end: seq<Cmd>, queue': seq<Cmd>, sent: seq<Cmd>,
                    queue: seq<Cmd>, added: seq<Cmd>)
    requires received + end == queue' + sent
    requires taken + queue' == queue + added
    ensures (taken + received) + end == queue + (added + sent)
  {
    calc {
      (taken + received) + end;
      taken + (received + end);
      taken + (queue' + sent);
      (taken + queue') + sent;
      (queue + added) + sent;
      queue + (added + sent);
    }
  }
}
