/**
 * The deadline scheduler behind the toast viewer, as pure functions.
 *
 * The viewer keeps the pending expiry instants in a `BinaryHeap<Reverse<DateTime>>`,
 * a min-heap; here the heap is an ascending sequence, so popping the heap is taking
 * the head. Instants are whole milliseconds.
 */
module ToastSchedule {
  import opened Wrappers

  /** The heap order: an ascending sequence of instants. */
  ghost predicate Sorted(s: seq<int>) {
    forall i, j :: 0 <= i <= j < |s| ==> s[i] <= s[j]
  }

  /** `BinaryHeap::push`: the new instant joins the pending ones. */
  function Push(heap: seq<int>, x: int): (r: seq<int>)
    requires Sorted(heap)
    ensures Sorted(r)
    ensures multiset(r) == multiset(heap) + multiset{x}
    ensures |r| == |heap| + 1
  {
    if heap == [] || x <= heap[0] then
      [x] + heap
    else
      var tail := Push(heap[1..], x);
      PushBehindHead(heap, x, tail);
      [heap[0]] + tail
  }

  /** Pushing behind a head that is smaller than the new instant keeps the order. */
  lemma PushBehindHead(heap: seq<int>, x: int, tail: seq<int>)
    requires Sorted(heap) && heap != [] && heap[0] < x
    requires Sorted(tail) && multiset(tail) == multiset(heap[1..]) + multiset{x}
    ensures Sorted([heap[0]] + tail)
    ensures multiset([heap[0]] + tail) == multiset(heap) + multiset{x}
  {
    assert heap == [heap[0]] + heap[1..];
    forall j | 0 <= j < |tail| ensures heap[0] <= tail[j] {
      assert tail[j] in multiset(tail);
      if tail[j] != x {
        assert tail[j] in multiset(heap[1..]);
        var k :| 0 <= k < |heap[1..]| && heap[1..][k] == tail[j];
        assert heap[k + 1] == tail[j];
      }
    }
    var r := [heap[0]] + tail;
    forall i, j | 0 <= i <= j < |r| ensures r[i] <= r[j] {
      if 0 < i {
        assert r[i] == tail[i - 1] && r[j] == tail[j - 1];
      } else if 0 < j {
        assert r[j] == tail[j - 1];
      }
    }
  }

  /** `BinaryHeap::pop` of a `Reverse` heap yields the earliest pending instant. */
  lemma PopIsEarliest(heap: seq<int>, x: int)
    requires Sorted(heap) && x in heap
    ensures heap[0] <= x
  {
    var k :| 0 <= k < |heap| && heap[k] == x;
  }

  /**
   * The number of instants `trigger_next_cleanup` pops and throws away before it
   * finds one that is not in the past: the index of the first instant `>= now`,
   * or `|heap|` when every instant is past.
   */
  function FirstFuture(heap: seq<int>, now: int): (k: nat)
    ensures k <= |heap|
    ensures forall i :: 0 <= i < k ==> heap[i] < now
    ensures k < |heap| ==> now <= heap[k]
  {
    if heap == [] || now <= heap[0] then 0 else 1 + FirstFuture(heap[1..], now)
  }

  /** The scheduler's state: the armed timer's deadline, if any, and the pending instants. */
  datatype Timer = Timer(task: Option<int>, heap: seq<int>)

  /**
   * What `trigger_next_cleanup` leaves behind when no timer is armed: the past
   * instants are popped and dropped, the first instant that is not past is popped and
   * armed, and the rest stays pending.
   */
  function Arm(heap: seq<int>, now: int): (r: Timer)
    ensures r.task.None? ==> r.heap == [] && forall i :: 0 <= i < |heap| ==> heap[i] < now
    ensures r.task.Some? ==> now <= r.task.value && r.task.value in heap
    ensures multiset(r.heap) <= multiset(heap)
    ensures r.task.Some? ==> multiset(r.heap) + multiset{r.task.value} <= multiset(heap)
    ensures forall x :: x in heap && now <= x ==> r.task == Some(x) || x in r.heap
    ensures forall x :: x in heap && x !in r.heap && r.task != Some(x) ==> x < now
    ensures Sorted(heap) ==> Sorted(r.heap)
    ensures Sorted(heap) && r.task.Some? ==> forall x :: x in r.heap ==> r.task.value <= x
    ensures forall x :: now <= x ==> multiset(r.heap)[x] + (if r.task == Some(x) then 1 else 0) == multiset(heap)[x]
  {
    var k := FirstFuture(heap, now);
    ArmCounts(heap, k, now);
    if k == |heap| then
      Timer(None, [])
    else
      ArmFacts(heap, k);
      Timer(Some(heap[k]), heap[k + 1..])
  }

  /** Instants that are not past all lie after the popped prefix, with their multiplicity. */
  lemma ArmCounts(heap: seq<int>, k: nat, now: int)
    requires k <= |heap| && forall i :: 0 <= i < k ==> heap[i] < now
    ensures k == |heap| ==> forall x :: now <= x ==> multiset(heap)[x] == 0
    ensures k < |heap| ==> forall x :: now <= x ==>
      multiset(heap[k + 1..])[x] + (if heap[k] == x then 1 else 0) == multiset(heap)[x]
  {
    assert heap == heap[..k] + heap[k..];
    forall x | now <= x ensures multiset(heap[..k])[x] == 0 {
      assert x !in heap[..k];
    }
    if k < |heap| {
      assert heap[k..] == [heap[k]] + heap[k + 1..];
    }
  }

  /** The pending instants after the popped prefix and the armed instant. */
  lemma ArmFacts(heap: seq<int>, k: nat)
    requires k < |heap|
    ensures multiset(heap[k + 1..]) + multiset{heap[k]} <= multiset(heap)
    ensures forall x :: x in heap && x !in heap[k + 1..] && x != heap[k] ==> x in heap[..k]
    ensures Sorted(heap) ==> Sorted(heap[k + 1..])
    ensures Sorted(heap) ==> forall j :: k < j < |heap| ==> heap[k] <= heap[j]
  {
    assert heap == heap[..k] + [heap[k]] + heap[k + 1..];
    assert multiset(heap) == multiset(heap[..k]) + multiset{heap[k]} + multiset(heap[k + 1..]);
  }

  /** Between operations an unarmed scheduler has nothing pending. */
  ghost predicate Settled(t: Timer) {
    t.task.None? ==> t.heap == []
  }

  /** The instant `d` will still wake the viewer: it is armed or it is pending. */
  ghost predicate Pending(t: Timer, d: int) {
    t.task == Some(d) || d in t.heap
  }

  /**
   * `trigger_next_cleanup`: an armed timer is left alone, heap included; otherwise
   * the heap is drained up to the first instant that is not past, which is armed.
   */
  function Trigger(t: Timer, now: int): (r: Timer)
    ensures Settled(r)
    ensures t.task.Some? ==> r == t
    ensures t.task.None? ==> r == Arm(t.heap, now)
  {
    if t.task.Some? then t else Arm(t.heap, now)
  }

  /** `schedule_cleanup`: push the instant, then trigger. */
  function Schedule(t: Timer, d: int, now: int): (r: Timer)
    requires Sorted(t.heap)
    ensures Sorted(r.heap)
    ensures t.task.Some? ==> r.task == t.task && multiset(r.heap) == multiset(t.heap) + multiset{d}
  {
    Trigger(Timer(t.task, Push(t.heap, d)), now)
  }

  /**
   * Scheduling into a settled scheduler never loses a pending instant, and a
   * deadline that is not past is itself pending afterwards, armed when nothing was.
   */
  lemma ScheduleKeepsPending(t: Timer, d: int, now: int, x: int)
    requires Sorted(t.heap) && Settled(t) && now <= d
    ensures Pending(Schedule(t, d, now), d)
    ensures Pending(t, x) ==> Pending(Schedule(t, d, now), x)
    ensures t.task.None? ==> Schedule(t, d, now) == Timer(Some(d), [])
  {
    var h := Push(t.heap, d);
    assert d in multiset(h);
    if t.task.None? {
      assert h == [d];
    } else if x in t.heap {
      assert x in multiset(h);
    }
  }

  /**
   * When the armed timer fired on time (its deadline `f` is not after `now`), the
   * re-armed scheduler still holds every instant that lies after `now`.
   */
  lemma RearmKeepsFuture(f: int, heap: seq<int>, now: int, x: int)
    requires f <= now < x
    requires Pending(Timer(Some(f), heap), x)
    ensures Pending(Trigger(Timer(None, heap), now), x)
  {
  }
}

