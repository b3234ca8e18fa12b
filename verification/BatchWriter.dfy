/** The database writer: one batch, filled by adders and swapped out by two kinds of flush.

    An Add is two critical sections, the append and (when the batch has reached the threshold) the
    flush, and the timer's flush can run between them. Each critical section is one method here, so
    an interleaving of goroutines is a sequence of calls. */
module BatchWriting {

  /** The batch length at which an adder flushes. */
  const THRESHOLD: nat := 5000

  /** `waiting` counts the adders that have appended but not yet done the flush they owe. */
  datatype Act<E> = Append(event: E) | AdderFlush | TimerFlush

  function Flatten<E>(chunks: seq<seq<E>>): seq<E> {
    if chunks == [] then [] else Flatten(chunks[..|chunks| - 1]) + chunks[|chunks| - 1]
  }

  /** The events added by a schedule, in order. */
  function Added<E>(acts: seq<Act<E>>): seq<E> {
    if acts == [] then []
    else Added(acts[..|acts| - 1]) + if acts[|acts| - 1].Append? then [acts[|acts| - 1].event] else []
  }

  /** What a flush hands to the database: never an empty chunk, never more than the bound. */
  ghost predicate GoodChunks<E>(chunks: seq<seq<E>>, bound: nat) {
    forall i :: 0 <= i < |chunks| ==> 0 < |chunks[i]| <= bound
  }

  class TSWriter<E> {
    const hasPool: bool
    var batch: seq<E>
    ghost const adders: nat           // goroutines that call Add; the service has one
    ghost var waiting: nat            // adders that have appended and owe a flush
    ghost var added: seq<E>           // every event ever added, in order
    ghost var handed: seq<seq<E>>     // the chunks swapped out, in swap order

    /** Nothing is lost, duplicated or reordered, and the batch stays below the threshold except for
        one event per adder that still owes a flush. */
    ghost predicate Valid()
      reads this
    {
      && Flatten(handed) + batch == added
      && waiting <= adders
      && (hasPool ==> |batch| < THRESHOLD + waiting && GoodChunks(handed, THRESHOLD + adders - 1))
      && (!hasPool ==> handed == [])
    }

    constructor (hasPool: bool, ghost adders: nat)
      requires adders > 0
      ensures Valid() && this.hasPool == hasPool && this.adders == adders
      ensures batch == [] && waiting == 0 && added == [] && handed == []
    {
      this.hasPool, this.adders := hasPool, adders;
      batch, waiting, added, handed := [], 0, [], [];
    }

    /** The first critical section of Add; the caller must flush next if told so. */
    method Append(e: E) returns (shouldFlush: bool)
      requires Valid() && waiting < adders
      modifies this
      ensures Valid() && added == old(added) + [e] && handed == old(handed) && batch == old(batch) + [e]
      ensures shouldFlush == (|batch| >= 5000)
      ensures waiting == old(waiting) + if shouldFlush then 1 else 0
    {
      assert (Flatten(handed) + batch) + [e] == Flatten(handed) + (batch + [e]);
      batch := batch + [e];
      added := added + [e];
      shouldFlush := |batch| >= THRESHOLD;
      if shouldFlush { waiting := waiting + 1; }
    }

    /** The critical section of Flush; `owed` says whether an adder or the timer runs it. */
    method Flush(ghost owed: bool)
      requires Valid() && (owed ==> waiting > 0)
      modifies this
      ensures Flatten(handed) + batch == added && added == old(added)
      ensures waiting == old(waiting) - if owed then 1 else 0
      ensures if hasPool then batch == [] else batch == old(batch)
      ensures handed == if !hasPool || old(batch) == [] then old(handed) else old(handed) + [old(batch)]
      ensures Valid()
    {
      if owed { waiting := waiting - 1; }
      if |batch| == 0 || !hasPool {
        return;
      }
      var toFlush := batch;
      FlattenSnoc(handed, toFlush);
      batch := [];
      handed := handed + [toFlush];
    }

    /** Runs any interleaving of the adders and the timer; `owing` counts the adders between their
        append and the flush they owe. */
    method Interleave(acts: seq<Act<E>>, n: nat) returns (ran: nat, owing: nat)
      requires Valid() && waiting == 0 && added == [] && n == adders
      modifies this
      ensures Valid() && ran <= |acts| && owing == waiting
      // it runs to the end unless the schedule asks for an append or a flush that no adder can do
      ensures ran < |acts| ==> if acts[ran].Append? then owing == n else acts[ran].AdderFlush? && owing == 0
      ensures Flatten(handed) + batch == Added(acts[..ran])
      ensures hasPool ==> |batch| < THRESHOLD + n && GoodChunks(handed, THRESHOLD + n - 1)
    {
      ran, owing := 0, 0;
      while ran < |acts|
        invariant Valid() && ran <= |acts| && owing == waiting && added == Added(acts[..ran])
      {
        assert acts[..ran + 1][..ran] == acts[..ran];
        match acts[ran] {
          case Append(e) =>
            if owing == n { return; }
            var shouldFlush := Append(e);
            if shouldFlush { owing := owing + 1; }
          case AdderFlush =>
            if owing == 0 { return; }
            Flush(true);
            owing := owing - 1;
          case TimerFlush =>
            Flush(false);
        }
        ran := ran + 1;
      }
    }
  }

  lemma FlattenSnoc<E>(chunks: seq<seq<E>>, chunk: seq<E>)
    ensures Flatten(chunks + [chunk]) == Flatten(chunks) + chunk
  {
    assert (chunks + [chunk])[..|chunks|] == chunks;
  }
}
