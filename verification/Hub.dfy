/** The WebSocket gateway: a hub that fans every published frame out to the bounded queues of the
    registered clients, dropping it for a client whose queue is full, and closes a queue once. */
module Gateway {

  /** The slots of a client's queue. */
  const CAPACITY: nat := 256

  type Frame = string

  // ---- one client's queue ----------------------------------------------------------------

  /** What happens to a queue: a broadcast offers a frame, the write pump takes one. */
  datatype Act = Offer(frame: Frame) | Take

  /** `kept` are the positions, among all frames offered, of those that got a slot. */
  datatype Channel = Channel(queue: seq<Frame>, taken: seq<Frame>, offered: seq<Frame>, kept: seq<nat>)

  function Applied(c: Channel, a: Act): Channel
    requires a.Take? ==> c.queue != []
  {
    match a
    case Take => c.(queue := c.queue[1..], taken := c.taken + [c.queue[0]])
    case Offer(frame) =>
      if |c.queue| < CAPACITY
      then c.(queue := c.queue + [frame], offered := c.offered + [frame], kept := c.kept + [|c.offered|])
      else c.(offered := c.offered + [frame])
  }

  /** The pump takes only when there is something to take. */
  ghost predicate Legal(trace: seq<Act>)
    decreases |trace|, 0
  {
    trace == [] ||
    var init := trace[..|trace| - 1];
    Legal(init) && (trace[|trace| - 1].Take? ==> After(init).queue != [])
  }

  ghost function After(trace: seq<Act>): Channel
    requires Legal(trace)
    decreases |trace|, 1
  {
    if trace == [] then Channel([], [], [], [])
    else Applied(After(trace[..|trace| - 1]), trace[|trace| - 1])
  }

  /** The frames that found the queue full. */
  ghost function Dropped(trace: seq<Act>): nat
    requires Legal(trace)
  {
    if trace == [] then 0
    else
      var init := trace[..|trace| - 1];
      Dropped(init) + if trace[|trace| - 1].Offer? && |After(init).queue| >= CAPACITY then 1 else 0
  }

  lemma LegalSnoc(trace: seq<Act>, a: Act)
    requires Legal(trace) && (a.Take? ==> After(trace).queue != [])
    ensures Legal(trace + [a]) && After(trace + [a]) == Applied(After(trace), a)
  {
    assert (trace + [a])[..|trace|] == trace;
  }

  /** The frames taken and queued, in order, are those at increasing positions of the frames offered. */
  ghost predicate InOrder(c: Channel) {
    && |c.kept| == |c.taken| + |c.queue|
    && (forall k :: 0 <= k < |c.kept| ==> c.kept[k] < |c.offered| && (c.taken + c.queue)[k] == c.offered[c.kept[k]])
    && (forall k, l :: 0 <= k < l < |c.kept| ==> c.kept[k] < c.kept[l])
  }

  lemma TakeKeepsOrder(c: Channel)
    requires c.queue != []
    ensures (c.taken + [c.queue[0]]) + c.queue[1..] == c.taken + c.queue
  {
  }

  lemma OfferKeepsOrder(c: Channel, frame: Frame)
    requires InOrder(c)
    ensures InOrder(Applied(c, Offer(frame)))
  {
    var c' := Applied(c, Offer(frame));
    if |c.queue| < CAPACITY {
      assert c'.taken + c'.queue == (c.taken + c.queue) + [frame];
    }
  }

  /** Nothing is reordered, duplicated or invented; every frame offered is taken, queued or dropped. */
  lemma {:induction false} Conservation(trace: seq<Act>)
    requires Legal(trace)
    ensures InOrder(After(trace)) && |After(trace).queue| <= CAPACITY
    ensures |After(trace).offered| == |After(trace).taken| + |After(trace).queue| + Dropped(trace)
  {
    if trace != [] {
      var init, last := trace[..|trace| - 1], trace[|trace| - 1];
      Conservation(init);
      if last.Take? {
        TakeKeepsOrder(After(init));
      } else {
        OfferKeepsOrder(After(init), last.frame);
      }
    }
  }

  lemma {:induction false} IncreasingFillsUp(kept: seq<nat>, n: nat, k: nat)
    requires |kept| == n && k < n
    requires forall i :: 0 <= i < n ==> kept[i] < n
    requires forall i, j :: 0 <= i < j < n ==> kept[i] < kept[j]
    ensures kept[k] == k
  {
    AtLeastIndex(kept, k);
    AtMostIndex(kept, n, k);
  }

  lemma {:induction false} AtLeastIndex(kept: seq<nat>, k: nat)
    requires k < |kept| && forall i, j :: 0 <= i < j < |kept| ==> kept[i] < kept[j]
    ensures kept[k] >= k
  {
    if k > 0 { AtLeastIndex(kept, k - 1); }
  }

  lemma {:induction false} AtMostIndex(kept: seq<nat>, n: nat, k: nat)
    requires |kept| == n && k < n && forall i :: 0 <= i < n ==> kept[i] < n
    requires forall i, j :: 0 <= i < j < n ==> kept[i] < kept[j]
    ensures kept[k] <= k
    decreases n - k
  {
    if k + 1 < n { AtMostIndex(kept, n, k + 1); }
  }

  /** A client misses nothing exactly when no frame was dropped. */
  lemma NoGapIff(trace: seq<Act>)
    requires Legal(trace)
    ensures After(trace).taken + After(trace).queue == After(trace).offered <==> Dropped(trace) == 0
  {
    var c := After(trace);
    Conservation(trace);
    if Dropped(trace) == 0 {
      forall k | 0 <= k < |c.offered| ensures (c.taken + c.queue)[k] == c.offered[k] {
        IncreasingFillsUp(c.kept, |c.offered|, k);
      }
    } else {
      assert |c.taken + c.queue| != |c.offered|;
    }
  }

  /** How far the frames offered are ahead of the frames taken. */
  function Lead(trace: seq<Act>): int {
    if trace == [] then 0 else Lead(trace[..|trace| - 1]) + if trace[|trace| - 1].Take? then -1 else 1
  }

  lemma {:induction false} LeadIsQueued(trace: seq<Act>)
    requires Legal(trace)
    ensures Lead(trace) == |After(trace).queue| + Dropped(trace)
  {
    if trace != [] {
      LeadIsQueued(trace[..|trace| - 1]);
      Conservation(trace[..|trace| - 1]);
    }
  }

  /** No frame is dropped exactly when the broadcasts are never more than 256 ahead of the pump. */
  lemma {:induction false} NoDropIff(trace: seq<Act>)
    requires Legal(trace)
    ensures Dropped(trace) == 0 <==> forall k :: 0 <= k <= |trace| ==> Lead(trace[..k]) <= CAPACITY
  {
    assert trace[..|trace|] == trace;
    LeadIsQueued(trace);
    Conservation(trace);
    if trace != [] {
      var init := trace[..|trace| - 1];
      NoDropIff(init);
      LeadIsQueued(init);
      assert forall k :: 0 <= k <= |init| ==> trace[..k] == init[..k];
      if Dropped(init) > 0 {
        var k :| 0 <= k <= |init| && Lead(init[..k]) > CAPACITY;
        assert Lead(trace[..k]) > CAPACITY;
      } else if Dropped(trace) > 0 {
        assert Lead(trace[..|trace|]) > CAPACITY;
      }
    }
  }

  // ---- clients and hub -------------------------------------------------------------------

  datatype Received = Message(frame: Frame) | ChannelClosed

  class Client {
    const id: string
    var queue: seq<Frame>
    var closed: bool
    ghost var trace: seq<Act>
    ghost var since: nat           // how many frames had been published when it registered

    ghost predicate Valid()
      reads this
    {
      Legal(trace) && queue == After(trace).queue
    }

    constructor (id: string)
      ensures Valid() && this.id == id && !closed && trace == []
    {
      this.id, queue, closed, trace, since := id, [], false, [], 0;
    }

    /** A send that gives up when the queue is full; on a closed channel it would panic. */
    method TrySend(frame: Frame)
      requires Valid() && !closed
      modifies `queue, `trace
      ensures Valid() && trace == old(trace) + [Offer(frame)]
      ensures queue == if |old(queue)| < 256 then old(queue) + [frame] else old(queue)
    {
      LegalSnoc(trace, Offer(frame));
      if |queue| < CAPACITY {
        queue := queue + [frame];
      }
      trace := trace + [Offer(frame)];
    }

    /** One turn of the write pump. An open empty queue blocks it. */
    method Receive() returns (r: Received)
      requires Valid() && (queue != [] || closed)
      modifies `queue, `trace
      ensures Valid()
      ensures r.ChannelClosed? <==> old(queue) == []
      ensures r.ChannelClosed? ==> trace == old(trace) && closed
      ensures r.Message? ==> trace == old(trace) + [Take] && [r.frame] + queue == old(queue)
    {
      if queue == [] {
        r := ChannelClosed;
      } else {
        LegalSnoc(trace, Take);
        r := Message(queue[0]);
        queue := queue[1..];
        trace := trace + [Take];
      }
    }

    /** Closing twice would panic. */
    method Close()
      requires !closed
      modifies `closed
      ensures closed
    {
      closed := true;
    }
  }

  class Hub {
    var clients: map<string, Client>
    ghost var members: set<Client>      // the clients in the map
    ghost var published: seq<Frame>

    /** A registered client is open and has been offered exactly the frames published since it
        registered. */
    ghost predicate Serves(c: Client)
      reads this, c
    {
      && c.Valid() && !c.closed
      && c.since <= |published|
      && After(c.trace).offered == published[c.since..]
    }

    /** The map lists each member under its own name and nothing else. */
    ghost predicate Lists()
      reads this
    {
      && (forall id :: id in clients ==> clients[id] in members && clients[id].id == id)
      && (forall c :: c in members ==> c.id in clients && clients[c.id] == c)
    }

    ghost predicate Valid()
      reads this, members
    {
      Lists() && forall c :: c in members ==> Serves(c)
    }

    constructor ()
      ensures Valid() && clients == map[] && members == {} && published == []
    {
      clients, members, published := map[], {}, [];
    }

    /** A client with a fresh queue joins. A client already listed under that name is no longer
        served, and its queue stays open. */
    method Register(c: Client)
      requires Valid() && c.Valid() && !c.closed && c.trace == [] && c !in members
      modifies this`clients, this`members, c`since
      ensures Valid() && clients == old(clients)[c.id := c] && c.since == |published|
      ensures c in members && forall d :: d in members && d != c ==> d in old(members)
    {
      c.since := |published|;
      assert published[c.since..] == [];
      members := (if c.id in clients then members - {clients[c.id]} else members) + {c};
      clients := clients[c.id := c];
      assert Serves(c);
    }

    /** The client of that name, if any, leaves and its queue is closed. */
    method Unregister(id: string)
      requires Valid()
      modifies this`clients, this`members, members`closed
      ensures Valid() && clients == old(clients) - {id} && members <= old(members)
      ensures forall c :: c in old(members) ==> (c.closed <==> c.id == id) && (c in members <==> c.id != id)
    {
      if id in clients {
        var c := clients[id];
        clients, members := clients - {id}, members - {c};
        c.Close();
      } else {
        assert clients - {id} == clients;
      }
    }

    /** The write pump of a registered client takes its oldest queued frame; no other client notices. */
    method Pump(c: Client) returns (frame: Frame)
      requires Valid() && c in members && c.queue != []
      modifies c`queue, c`trace
      ensures Valid() && [frame] + c.queue == old(c.queue) && c.trace == old(c.trace) + [Take]
    {
      LegalSnoc(c.trace, Take);
      var r := c.Receive();
      frame := r.frame;
      assert Serves(c);
    }

    /** Every registered client is offered the frame, and only they are. */
    method Broadcast(frame: Frame)
      requires Valid()
      modifies this`published, members`queue, members`trace
      ensures Valid() && published == old(published) + [frame]
      ensures forall c :: c in members ==> c.trace == old(c.trace) + [Offer(frame)]
    {
      ghost var before := published;
      OfferAll(frame);
      published := published + [frame];
      forall c | c in members ensures Serves(c) {
        OfferServed(c, old(c.trace), before, frame);
      }
    }

    lemma OfferServed(c: Client, trace: seq<Act>, before: seq<Frame>, frame: Frame)
      requires c.Valid() && !c.closed && published == before + [frame] && c.since <= |before|
      requires Legal(trace) && After(trace).offered == before[c.since..] && c.trace == trace + [Offer(frame)]
      ensures Serves(c)
    {
      LegalSnoc(trace, Offer(frame));
      assert published[c.since..] == before[c.since..] + [frame];
    }

    method OfferAll(frame: Frame)
      requires Lists() && forall c :: c in members ==> c.Valid() && !c.closed
      modifies members`queue, members`trace
      ensures forall c :: c in members ==> c.Valid() && c.trace == old(c.trace) + [Offer(frame)]
    {
      hide Client.Valid;
      var left := clients.Keys;
      ghost var todo := members;
      while left != {}
        invariant left <= clients.Keys && todo <= members
        invariant forall c :: c in members ==> (c in todo <==> c.id in left)
        invariant forall c :: c in todo ==> c.Valid() && c.trace == old(c.trace)
        invariant forall c :: c in members && c !in todo ==> c.Valid() && c.trace == old(c.trace) + [Offer(frame)]
      {
        var id :| id in left;
        var c := clients[id];
        c.TrySend(frame);
        left, todo := left - {id}, todo - {c};
      }
    }
  }
}
