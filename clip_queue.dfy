/**
 * The extension's clip queue, kept under the key "shinen_clip_queue" of the
 * browser's local storage. Clips are appended at the tail, at most 200 are kept
 * (the oldest are dropped first), and a clip leaves the queue only when the app
 * acknowledges it with both its id and its nonce.
 *
 * Storage is a map from keys to stored values; a value under the queue key may
 * be something other than an array, in which case the queue reads as empty.
 * Generated ids, nonces and the clock are parameters.
 */
module ClipQueue {
  import opened Wrappers

  const QueueKey: string := "shinen_clip_queue"
  const MaxQueue: nat := 200

  /** A clip: its id, the nonce that must accompany its acknowledgement, the
    * captured page data and the time it was queued. */
  datatype ClipItem = ClipItem(clipId: string, nonce: string, data: string, enqueuedAt: int)

  /** A value in storage: an array of clips, or anything else. */
  datatype StoredValue = Items(items: seq<ClipItem>) | NotAnArray

  /** `getQueue`: the stored array, or [] when the key is missing or holds something else. */
  function QueueOf(storage: map<string, StoredValue>): (q: seq<ClipItem>)
    ensures QueueKey !in storage ==> q == []
    ensures QueueKey in storage && storage[QueueKey].NotAnArray? ==> q == []
  {
    if QueueKey in storage && storage[QueueKey].Items? then storage[QueueKey].items else []
  }

  /** `setQueue` then `getQueue` reads back what was written, and other keys are untouched. */
  lemma SetThenGet(storage: map<string, StoredValue>, q: seq<ClipItem>, k: string)
    ensures QueueOf(storage[QueueKey := Items(q)]) == q
    ensures k != QueueKey ==> (k in storage <==> k in storage[QueueKey := Items(q)])
  {
  }

  /** The queue after dropping the oldest items until at most 200 remain. */
  function KeepNewest(q: seq<ClipItem>): (r: seq<ClipItem>)
    ensures |r| <= MaxQueue
    ensures |r| == if |q| > MaxQueue then MaxQueue else |q|
    ensures r == q[|q| - |r|..]
  {
    if |q| > MaxQueue then q[|q| - MaxQueue..] else q
  }

  /** After an enqueue, the new clip is last, at most 200 clips remain, and the
    * survivors are the newest of the old queue in their original order. */
  lemma EnqueueShape(q: seq<ClipItem>, item: ClipItem)
    ensures var r := KeepNewest(q + [item]);
      && |r| >= 1 && r[|r| - 1] == item
      && |r| <= MaxQueue
      && r[..|r| - 1] == q[|q| + 1 - |r|..]
  {
    var r := KeepNewest(q + [item]);
    assert r == (q + [item])[|q| + 1 - |r|..];
    assert r[..|r| - 1] == (q + [item])[|q| + 1 - |r|..|q|];
  }

  /** Below the cap nothing is dropped. */
  lemma EnqueueBelowCap(q: seq<ClipItem>, item: ClipItem)
    requires |q| < MaxQueue
    ensures KeepNewest(q + [item]) == q + [item]
  {
  }

  /** The queue after enqueuing `items` one by one into `q`. */
  function EnqueueAll(q: seq<ClipItem>, items: seq<ClipItem>): seq<ClipItem>
    decreases |items|
  {
    if |items| == 0 then q else EnqueueAll(KeepNewest(q + [items[0]]), items[1..])
  }

  /** Enqueuing clip after clip keeps exactly the newest 200 of everything ever queued. */
  lemma {:induction false} EnqueueAllKeepsNewest(q: seq<ClipItem>, items: seq<ClipItem>)
    requires |q| <= MaxQueue
    ensures EnqueueAll(q, items) == KeepNewest(q + items)
    decreases |items|
  {
    if |items| > 0 {
      var q1 := KeepNewest(q + [items[0]]);
      assert EnqueueAll(q, items) == EnqueueAll(q1, items[1..]);
      EnqueueAllKeepsNewest(q1, items[1..]);
      FirstThenRest(q, items);
      KeepNewestAppend(q + [items[0]], items[1..]);
    }
  }

  lemma FirstThenRest(q: seq<ClipItem>, items: seq<ClipItem>)
    requires |items| > 0
    ensures q + items == (q + [items[0]]) + items[1..]
  {
    assert items == [items[0]] + items[1..];
  }

  /** Capping before appending more does not change the final newest 200. */
  lemma KeepNewestAppend(q: seq<ClipItem>, more: seq<ClipItem>)
    ensures KeepNewest(KeepNewest(q) + more) == KeepNewest(q + more)
  {
    var k := KeepNewest(q);
    var a, b := KeepNewest(k + more), KeepNewest(q + more);
    assert |a| == |b|;
    forall i | 0 <= i < |a| ensures a[i] == b[i] {
      var off := |q| - |k|;
      assert (k + more)[|k + more| - |a| + i] == (q + more)[|q + more| - |b| + i] by {
        var j := |k + more| - |a| + i;
        if j < |k| {
          assert (k + more)[j] == k[j] == q[off + j];
        }
      }
    }
  }

  /** The position of the first clip with this id (`findIndex`), or None. */
  function FirstIndex(q: seq<ClipItem>, clipId: string): (r: Option<nat>)
    ensures r.Some? ==> r.value < |q| && q[r.value].clipId == clipId
    ensures r.Some? ==> forall j :: 0 <= j < r.value ==> q[j].clipId != clipId
    ensures r.None? ==> forall j :: 0 <= j < |q| ==> q[j].clipId != clipId
  {
    if |q| == 0 then None
    else if q[0].clipId == clipId then Some(0)
    else match FirstIndex(q[1..], clipId)
      case Some(i) => Some(i + 1)
      case None => None
  }

  /** `queue.findIndex((item) => item.clipId === clipId)`, with -1 for a miss. */
  method FindIndex(q: seq<ClipItem>, clipId: string) returns (idx: int)
    ensures idx == match FirstIndex(q, clipId) case Some(i) => i case None => -1
  {
    idx := 0;
    while idx < |q|
      invariant 0 <= idx <= |q|
      invariant forall j :: 0 <= j < idx ==> q[j].clipId != clipId
    {
      if q[idx].clipId == clipId {
        return;
      }
      idx := idx + 1;
    }
    idx := -1;
  }

  /** What `dequeueByAck` does to the queue: whether it removes a clip, and the
    * queue afterwards. */
  function AckRemove(q: seq<ClipItem>, clipId: string, nonce: string): (r: (bool, seq<ClipItem>))
    // removal happens exactly when the first clip with this id carries this nonce
    ensures r.0 <==> exists i :: 0 <= i < |q| && FirstMatch(q, clipId, i) && q[i].nonce == nonce
    // on a miss or a nonce mismatch the queue is unchanged
    ensures !r.0 ==> r.1 == q
    // on a hit exactly that clip is removed, the others keep their order
    ensures r.0 ==> exists i :: 0 <= i < |q| && FirstMatch(q, clipId, i) && r.1 == q[..i] + q[i + 1..]
  {
    match FirstIndex(q, clipId)
    case None => (false, q)
    case Some(i) =>
      assert FirstMatch(q, clipId, i);
      if q[i].nonce != nonce then (false, q) else (true, q[..i] + q[i + 1..])
  }

  /** `i` is the position of the first clip with this id. */
  predicate FirstMatch(q: seq<ClipItem>, clipId: string, i: int) {
    0 <= i < |q| && q[i].clipId == clipId && forall j :: 0 <= j < i ==> q[j].clipId != clipId
  }

  /** A removal takes out one clip and nothing else. */
  lemma AckRemovesOne(q: seq<ClipItem>, clipId: string, nonce: string)
    requires AckRemove(q, clipId, nonce).0
    ensures var q2 := AckRemove(q, clipId, nonce).1;
      |q2| == |q| - 1 && exists i :: 0 <= i < |q| && multiset(q2) + multiset{q[i]} == multiset(q)
  {
    var i :| 0 <= i < |q| && FirstMatch(q, clipId, i) && AckRemove(q, clipId, nonce).1 == q[..i] + q[i + 1..];
    RemoveAt(q, i);
  }

  /** Cutting out the clip at `i` leaves one clip fewer, the others all kept. */
  lemma RemoveAt(q: seq<ClipItem>, i: nat)
    requires i < |q|
    ensures |q[..i] + q[i + 1..]| == |q| - 1
    ensures multiset(q[..i] + q[i + 1..]) + multiset{q[i]} == multiset(q)
  {
    var front, back := q[..i], q[i + 1..];
    assert q == front + [q[i]] + back;
    assert multiset(q) == multiset(front) + multiset{q[i]} + multiset(back);
    assert multiset(front + back) == multiset(front) + multiset(back);
  }

  /** Acknowledging a clip just enqueued (and not dropped) with its own nonce
    * removes it, provided its id is not already in the queue. */
  lemma AckOwnClip(q: seq<ClipItem>, item: ClipItem)
    requires |q| < MaxQueue
    requires forall j :: 0 <= j < |q| ==> q[j].clipId != item.clipId
    ensures AckRemove(KeepNewest(q + [item]), item.clipId, item.nonce) == (true, q)
  {
    var r := q + [item];
    assert r[|q|].clipId == item.clipId;
    assert forall j :: 0 <= j < |q| ==> r[j].clipId != item.clipId;
    assert FirstIndex(r, item.clipId) == Some(|q|);
    assert r[..|q|] + r[|q| + 1..] == q;
  }

  /** The queue in the browser's storage. */
  class ClipStorage {
    var storage: map<string, StoredValue>

    constructor(initial: map<string, StoredValue>)
      ensures storage == initial
    {
      storage := initial;
    }

    function Queue(): seq<ClipItem>
      reads this
    {
      QueueOf(storage)
    }

    /** `enqueue`: append the clip, drop the oldest while more than 200 remain,
      * write the queue back, and return the clip. */
    method Enqueue(data: string, clipId: string, nonce: string, nowMs: int) returns (item: ClipItem)
      modifies this
      ensures item == ClipItem(clipId, nonce, data, nowMs)
      ensures storage == old(storage)[QueueKey := Items(KeepNewest(old(Queue()) + [item]))]
      ensures Queue() == KeepNewest(old(Queue()) + [item])
    {
      var queue := QueueOf(storage);
      item := ClipItem(clipId, nonce, data, nowMs);
      queue := queue + [item];
      ghost var pushed := queue;
      while |queue| > MaxQueue
        invariant queue == pushed[|pushed| - |queue|..]
        invariant |queue| >= MaxQueue || queue == pushed
        decreases |queue|
      {
        queue := queue[1..];
      }
      storage := storage[QueueKey := Items(queue)];
    }

    /** `dequeueByAck`: remove the first clip with this id if its nonce matches,
      * writing the queue back only then; report whether it was removed. */
    method DequeueByAck(clipId: string, nonce: string) returns (removed: bool)
      modifies this
      ensures removed == AckRemove(old(Queue()), clipId, nonce).0
      ensures removed ==> storage == old(storage)[QueueKey := Items(AckRemove(old(Queue()), clipId, nonce).1)]
      ensures !removed ==> storage == old(storage)
    {
      var queue := QueueOf(storage);
      var idx := FindIndex(queue, clipId);
      if idx == -1 {
        return false;
      }
      if queue[idx].nonce != nonce {
        return false;
      }
      queue := queue[..idx] + queue[idx + 1..];
      storage := storage[QueueKey := Items(queue)];
      return true;
    }
  }
}
