/**
  The subscriber queues that `OBDClient.stream` hands out: `asyncio.Queue`s
  of capacity 256 that the broadcast keeps filled with the newest samples,
  dropping the oldest one when a queue is full.
*/
module Broadcast {
  import opened Common
  import opened Samples

  /** `asyncio.Queue(maxsize=256)`. */
  const QueueCapacity: nat := 256

  /** The last `n` elements of `s`, all of `s` when it is shorter. */
  function LastN<T>(s: seq<T>, n: nat): seq<T> {
    if |s| <= n then s else s[|s| - n..]
  }

  /** The contents of a queue after one broadcast delivery of `x`:
      `put_nowait`, or on `QueueFull` a `get_nowait` and a second `put_nowait`. */
  function Offered(items: seq<Sample>, x: Sample): seq<Sample> {
    if |items| < QueueCapacity then items + [x] else items[1..] + [x]
  }

  /** The contents after the samples of `batch` are delivered in order. */
  function OfferAll(items: seq<Sample>, batch: seq<Sample>): seq<Sample>
    decreases |batch|
  {
    if batch == [] then items else Offered(OfferAll(items, batch[..|batch| - 1]), batch[|batch| - 1])
  }

  /** One delivery keeps a queue within its capacity: a queue with room gets
      the sample at the back; a full one loses exactly its oldest item, gets
      the sample at the back and stays full. */
  lemma OfferedSpec(items: seq<Sample>, x: Sample)
    requires |items| <= QueueCapacity
    ensures |Offered(items, x)| <= QueueCapacity
    ensures |items| < QueueCapacity ==> Offered(items, x) == items + [x]
    ensures |items| == QueueCapacity ==> (
      && |Offered(items, x)| == QueueCapacity
      && Offered(items, x)[..QueueCapacity - 1] == items[1..]
      && Offered(items, x)[QueueCapacity - 1] == x)
  {
  }

  /** One delivery to a queue holding the newest items of `s` holds the
      newest items of `s + [x]`. */
  lemma OfferedLastN(s: seq<Sample>, x: Sample)
    ensures Offered(LastN(s, QueueCapacity), x) == LastN(s + [x], QueueCapacity)
    ensures |LastN(s + [x], QueueCapacity)| <= QueueCapacity
  {
    if |s| > QueueCapacity {
      assert (s + [x])[|s| + 1 - QueueCapacity..] == s[|s| - QueueCapacity..][1..] + [x];
    }
  }

  /** A queue that starts within its capacity holds, after a batch, exactly
      the newest 256 items of its old contents followed by the batch. */
  lemma {:induction false} OfferAllKeepsNewest(items: seq<Sample>, batch: seq<Sample>)
    requires |items| <= QueueCapacity
    ensures OfferAll(items, batch) == LastN(items + batch, QueueCapacity)
    ensures |OfferAll(items, batch)| <= QueueCapacity
    decreases |batch|
  {
    if batch == [] {
      assert items + batch == items;
    } else {
      var init := batch[..|batch| - 1];
      var x := batch[|batch| - 1];
      OfferAllKeepsNewest(items, init);
      OfferedLastN(items + init, x);
      assert items + init + [x] == items + batch;
    }
  }

  /** A queue of capacity 256 on which the broadcast offers 256 samples
      more than it can hold keeps only the last 256 of them. */
  lemma OfferAllOverflow(batch: seq<Sample>)
    requires |batch| == 2 * QueueCapacity
    ensures OfferAll([], batch) == batch[QueueCapacity..]
  {
    OfferAllKeepsNewest([], batch);
    assert [] + batch == batch;
  }

  /** The queue of one subscriber. */
  class SampleQueue {
    var items: seq<Sample>

    ghost predicate Valid()
      reads this
    {
      |items| <= QueueCapacity
    }

    /** A new, empty queue. */
    constructor ()
      ensures items == [] && Valid()
    {
      items := [];
    }

    /** `put_nowait`: refused with `QueueFull` when the queue is at capacity. */
    method PutNowait(x: Sample) returns (full: bool)
      modifies this
      ensures full <==> |old(items)| >= QueueCapacity
      ensures items == if full then old(items) else old(items) + [x]
    {
      full := |items| >= QueueCapacity;
      if !full {
        items := items + [x];
      }
    }

    /** `get_nowait`: the oldest item, or `None` for `QueueEmpty`. */
    method GetNowait() returns (r: Option<Sample>)
      modifies this
      ensures old(items) == [] ==> r == None && items == []
      ensures old(items) != [] ==> r == Some(old(items)[0]) && items == old(items)[1..]
    {
      if items == [] {
        return None;
      }
      r := Some(items[0]);
      items := items[1..];
    }

    /** One delivery of the broadcast to this queue. */
    method Offer(x: Sample)
      requires Valid()
      modifies this
      ensures Valid() && items == Offered(old(items), x)
    {
      var full := PutNowait(x);
      if full {
        var _ := GetNowait();
        var _ := PutNowait(x);
      }
    }
  }
}
