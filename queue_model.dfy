/**
 * Service queues and the items waiting in them (app/models/queue.py).
 * A queue's `items` relationship is the set of item rows whose `queueId` is
 * the queue's id, so every query here takes the item table and a queue id.
 */
module QueueModel {
  import opened Common

  datatype QueueType = Registration | Payment | Support | General

  datatype QueueItemStatus = Waiting | InProgress | Completed | Cancelled

  /** A row of `queues`; `maxCapacity == 0` means unlimited. */
  datatype Queue = Queue(
    name: string,
    description: Option<string>,
    queueType: QueueType,
    maxCapacity: int)

  /** A row of `queue_items`; times are seconds. */
  datatype QueueItem = QueueItem(
    queueId: int,
    userId: int,
    position: int,
    status: QueueItemStatus,
    priority: int,
    joinedAt: Option<int>,
    completedAt: Option<int>,
    notes: Option<string>)

  function WaitingIn(q: int): QueueItem -> bool {
    (it: QueueItem) => it.queueId == q && it.status == Waiting
  }

  function InProgressIn(q: int): QueueItem -> bool {
    (it: QueueItem) => it.queueId == q && it.status == InProgress
  }

  /** `Queue.current_length`: the WAITING items of queue `q`. */
  function CurrentLength(items: seq<QueueItem>, q: int): (n: nat)
    ensures n == |set i: nat | i < |items| && items[i].queueId == q && items[i].status == Waiting|
  {
    var n := Count(items, WaitingIn(q));
    assert Where(items, WaitingIn(q))
        == set i: nat | i < |items| && items[i].queueId == q && items[i].status == Waiting;
    n
  }

  /** `Queue.in_progress_count`: the IN_PROGRESS items of queue `q`. */
  function InProgressCount(items: seq<QueueItem>, q: int): (n: nat)
    ensures n == |set i: nat | i < |items| && items[i].queueId == q && items[i].status == InProgress|
  {
    var n := Count(items, InProgressIn(q));
    assert Where(items, InProgressIn(q))
        == set i: nat | i < |items| && items[i].queueId == q && items[i].status == InProgress;
    n
  }

  /** `Queue.is_full`. */
  predicate IsFull(queue: Queue, items: seq<QueueItem>, q: int) {
    if queue.maxCapacity == 0 then false else CurrentLength(items, q) >= queue.maxCapacity
  }

  /** `Queue.can_add_item`. */
  predicate CanAddItem(queue: Queue, items: seq<QueueItem>, q: int) {
    !IsFull(queue, items, q)
  }

  /** An unlimited queue always accepts; a limited one while fewer than the limit wait. */
  lemma CanAddItemIff(queue: Queue, items: seq<QueueItem>, q: int)
    ensures queue.maxCapacity == 0 ==> CanAddItem(queue, items, q)
    ensures queue.maxCapacity != 0 ==>
      (CanAddItem(queue, items, q) <==> CurrentLength(items, q) < queue.maxCapacity)
  {
  }

  /** The largest position among the WAITING items of queue `q`. */
  function MaxWaitingPosition(items: seq<QueueItem>, q: int): (m: Option<int>)
    ensures m.None? <==> forall i :: 0 <= i < |items| ==> !WaitingIn(q)(items[i])
    ensures m.Some? ==> forall i :: 0 <= i < |items| && WaitingIn(q)(items[i]) ==> items[i].position <= m.value
    ensures m.Some? ==> exists i :: 0 <= i < |items| && WaitingIn(q)(items[i]) && items[i].position == m.value
  {
    if items == [] then None
    else
      var init := items[..|items| - 1];
      var x := items[|items| - 1];
      var m0 := MaxWaitingPosition(init, q);
      assert forall i :: 0 <= i < |init| ==> items[i] == init[i];
      if !WaitingIn(q)(x) then m0
      else if m0.Some? && m0.value >= x.position then m0
      else Some(x.position)
  }

  /**
   * `Queue.next_position`: 1 when the queue has no items or none of them is
   * WAITING, otherwise one more than the largest waiting position.
   */
  function NextPosition(items: seq<QueueItem>, q: int): (p: int)
    ensures (forall i :: 0 <= i < |items| ==> !WaitingIn(q)(items[i])) ==> p == 1
    ensures forall i :: 0 <= i < |items| && WaitingIn(q)(items[i]) ==> items[i].position < p
    ensures p == 1 || exists i :: 0 <= i < |items| && WaitingIn(q)(items[i]) && items[i].position == p - 1
  {
    var mine := exists i :: 0 <= i < |items| && items[i].queueId == q;
    if !mine then 1
    else
      match MaxWaitingPosition(items, q)
      case None => 1
      case Some(m) => m + 1
  }

  /** Positions are reused: once nothing waits in the queue it starts again from 1. */
  lemma PositionsRestart(items: seq<QueueItem>, q: int)
    requires forall i :: 0 <= i < |items| && items[i].queueId == q ==> items[i].status != Waiting
    ensures NextPosition(items, q) == 1
  {
  }

  /** Service order: higher priority first, then lower position. */
  predicate ServedBefore(a: QueueItem, b: QueueItem) {
    a.priority > b.priority || (a.priority == b.priority && a.position < b.position)
  }

  /**
   * `Queue.get_next_waiting_item`: the index of the first WAITING item of
   * queue `q` that no other waiting item is served before (the head of the
   * stable sort by `(-priority, position)`).
   */
  function NextWaiting(items: seq<QueueItem>, q: int): (r: Option<nat>)
    ensures r.None? <==> forall i :: 0 <= i < |items| ==> !WaitingIn(q)(items[i])
    ensures r.Some? ==> r.value < |items| && WaitingIn(q)(items[r.value])
    ensures r.Some? ==> forall i :: 0 <= i < |items| && WaitingIn(q)(items[i]) ==>
      !ServedBefore(items[i], items[r.value])
    ensures r.Some? ==> forall i :: 0 <= i < r.value && WaitingIn(q)(items[i]) ==>
      ServedBefore(items[r.value], items[i])
  {
    if items == [] then None
    else
      var init := items[..|items| - 1];
      var x := items[|items| - 1];
      var r0 := NextWaiting(init, q);
      assert forall i :: 0 <= i < |init| ==> items[i] == init[i];
      if !WaitingIn(q)(x) then r0
      else if r0.None? || ServedBefore(x, init[r0.value]) then Some(|items| - 1)
      else r0
  }

  /** The item chosen next has the highest waiting priority and, among those, the lowest position. */
  lemma NextWaitingIsBest(items: seq<QueueItem>, q: int)
    requires NextWaiting(items, q).Some?
    ensures var k := NextWaiting(items, q).value;
      forall i :: 0 <= i < |items| && WaitingIn(q)(items[i]) ==>
        items[i].priority <= items[k].priority &&
        (items[i].priority == items[k].priority ==> items[k].position <= items[i].position)
  {
  }

  /** `QueueItem.start_processing`: only the status changes. */
  function StartProcessing(it: QueueItem): (r: QueueItem)
    ensures r.status == InProgress && r.(status := it.status) == it
  {
    it.(status := InProgress)
  }

  /** `QueueItem.mark_completed`: COMPLETED, stamped with the current time. */
  function MarkCompleted(it: QueueItem, now: int): (r: QueueItem)
    ensures r.status == Completed && r.completedAt == Some(now)
    ensures r.(status := it.status, completedAt := it.completedAt) == it
  {
    it.(status := Completed, completedAt := Some(now))
  }

  /** `QueueItem.cancel`: CANCELLED, stamped with the current time. */
  function Cancel(it: QueueItem, now: int): (r: QueueItem)
    ensures r.status == Cancelled && r.completedAt == Some(now)
    ensures r.(status := it.status, completedAt := it.completedAt) == it
  {
    it.(status := Cancelled, completedAt := Some(now))
  }

  /** Python `int(d / 60)`: the quotient truncated toward zero. */
  function WholeMinutes(d: int): (m: int)
    ensures d >= 0 ==> m >= 0 && m * 60 <= d < m * 60 + 60
    ensures d < 0 ==> m <= 0 && -m * 60 <= -d < -m * 60 + 60
  {
    if d >= 0 then d / 60 else -((-d) / 60)
  }

  /**
   * `QueueItem.wait_time_minutes`: 0 without a join time, otherwise the whole
   * minutes from joining to completion, or to `now` while not completed.
   */
  function WaitTimeMinutes(it: QueueItem, now: int): (m: int)
    ensures it.joinedAt.None? ==> m == 0
    ensures it.joinedAt.Some? ==>
      var stop := if it.completedAt.Some? then it.completedAt.value else now;
      var d := stop - it.joinedAt.value;
      (d >= 0 ==> m >= 0 && m * 60 <= d < m * 60 + 60) &&
      (d < 0 ==> m <= 0 && -m * 60 <= -d < -m * 60 + 60)
  {
    if it.joinedAt.None? then 0
    else
      var stop := if it.completedAt.Some? then it.completedAt.value else now;
      WholeMinutes(stop - it.joinedAt.value)
  }

}
