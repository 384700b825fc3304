/**
 * Toasts: the `Toaster` agent routes each toast to one registered viewer, and the
 * `ToastViewer` component keeps the live entries and reaps those whose timeout has
 * passed, driving a single timer from a heap of deadlines.
 *
 * Time is an explicit parameter `now`: an instant in whole milliseconds. Durations
 * are whole milliseconds too.
 */
module Toast {
  import opened Wrappers
  import opened ToastSchedule

  // ---------------------------------------------------------------------------
  // The toast value

  /** The severity of an alert; the toast logic passes it through untouched. */
  datatype AlertType = Default | Info | Success | Warning | Danger

  /** An action button of an alert, kept only by its text. */
  datatype Action = Action(text: string)

  /** A toast request; `body` stands for the rendered body markup. */
  datatype Toast = Toast(
    title: string,
    kind: AlertType,
    timeout: Option<nat>,
    body: string,
    actions: seq<Action>)

  /** `From<S> for Toast`: a toast carrying only a title. */
  function FromTitle(message: string): Toast {
    Toast(message, Default, None, "", [])
  }

  /** The longest duration `chrono::Duration::from_std` accepts: `i64::MAX` milliseconds. */
  const MAX_CHRONO_MILLIS: nat := 0x7FFF_FFFF_FFFF_FFFF

  /** `chrono::Duration::from_std`, which refuses durations beyond `MAX_CHRONO_MILLIS`. */
  function FromStd(d: nat): (r: Option<nat>)
    ensures r.Some? <==> d <= MAX_CHRONO_MILLIS
    ensures r.Some? ==> r.value == d
  {
    if d <= MAX_CHRONO_MILLIS then Some(d) else None
  }

  /** The absolute expiry `add_toast` gives a toast shown at `now`. */
  function Expiry(toast: Toast, now: int): Option<int> {
    match toast.timeout
    case None => None
    case Some(d) =>
      match FromStd(d)
      case None => None
      case Some(c) => Some(now + c)
  }

  /**
   * The rendered alert. `onclose` is the close callback: `Some(id)` sends
   * `Close(id)`; a toast with a timeout gets none.
   */
  datatype Alert = Alert(
    kind: AlertType,
    title: string,
    onclose: Option<nat>,
    actions: seq<Action>,
    body: string)

  function AlertOf(toast: Toast, id: nat): Alert {
    Alert(toast.kind, toast.title, if toast.timeout.None? then Some(id) else None, toast.actions, toast.body)
  }

  /** What `add_toast` derives from a toast: its expiry and its close callback. */
  lemma AddedEntryShape(toast: Toast, id: nat, now: int)
    ensures Expiry(toast, now).Some? <==> toast.timeout.Some? && toast.timeout.value <= MAX_CHRONO_MILLIS
    ensures Expiry(toast, now).Some? ==> Expiry(toast, now).value == now + toast.timeout.value
    ensures Expiry(toast, now).Some? ==> now <= Expiry(toast, now).value
    ensures AlertOf(toast, id).onclose.Some? <==> toast.timeout.None?
    ensures AlertOf(toast, id).onclose.Some? ==> AlertOf(toast, id).onclose.value == id
    ensures AlertOf(toast, id).title == toast.title && AlertOf(toast, id).actions == toast.actions
  {
  }

  /** A toast made from a bare title never expires and can be closed by hand. */
  lemma FromTitlePersists(message: string, id: nat, now: int)
    ensures FromTitle(message).title == message
    ensures Expiry(FromTitle(message), now).None?
    ensures AlertOf(FromTitle(message), id).onclose == Some(id)
    ensures AlertOf(FromTitle(message), id).kind == Default
  {
  }

  // ---------------------------------------------------------------------------
  // Live entries

  datatype ToastEntry = ToastEntry(id: nat, alert: Alert, timeout: Option<int>)

  /** `Vec::retain` on the entries: those satisfying `keep`, in their order. */
  function Retain(s: seq<ToastEntry>, keep: ToastEntry -> bool): (r: seq<ToastEntry>)
    ensures |r| <= |s|
    ensures forall x :: x in r <==> x in s && keep(x)
  {
    if s == [] then [] else (if keep(s[0]) then [s[0]] else []) + Retain(s[1..], keep)
  }

  /** The length is unchanged exactly when every element is kept, and then so is the list. */
  lemma {:induction false} RetainSameLength(s: seq<ToastEntry>, keep: ToastEntry -> bool)
    ensures |Retain(s, keep)| == |s| <==> forall i :: 0 <= i < |s| ==> keep(s[i])
    ensures (forall i :: 0 <= i < |s| ==> keep(s[i])) ==> Retain(s, keep) == s
  {
    if s != [] {
      RetainSameLength(s[1..], keep);
      assert forall i :: 1 <= i < |s| ==> s[i] == s[1..][i - 1];
      if !keep(s[0]) {
        assert |Retain(s[1..], keep)| <= |s| - 1;
      }
    }
  }

  /** Retaining distributes over concatenation, so the order of what is kept is preserved. */
  lemma {:induction false} RetainConcat(a: seq<ToastEntry>, b: seq<ToastEntry>, keep: ToastEntry -> bool)
    ensures Retain(a + b, keep) == Retain(a, keep) + Retain(b, keep)
  {
    if a != [] {
      assert (a + b)[1..] == a[1..] + b;
      RetainConcat(a[1..], b, keep);
    } else {
      assert a + b == b;
    }
  }

  /** Retaining twice with the same test is retaining once. */
  lemma {:induction false} RetainIdempotent(s: seq<ToastEntry>, keep: ToastEntry -> bool)
    ensures Retain(Retain(s, keep), keep) == Retain(s, keep)
  {
    if s != [] {
      RetainIdempotent(s[1..], keep);
      var rest := Retain(s[1..], keep);
      if keep(s[0]) {
        var r := [s[0]] + rest;
        assert Retain(s, keep) == r;
        assert r[0] == s[0] && r[1..] == rest;
        assert Retain(r, keep) == [s[0]] + Retain(rest, keep);
      } else {
        assert Retain(s, keep) == [] + rest == rest;
      }
    }
  }

  /** Two retains commute: closing an entry and reaping expired ones converge. */
  lemma {:induction false} RetainCommutes(s: seq<ToastEntry>, p: ToastEntry -> bool, q: ToastEntry -> bool)
    ensures Retain(Retain(s, p), q) == Retain(Retain(s, q), p)
  {
    if s != [] {
      RetainCommutes(s[1..], p, q);
      var h := [s[0]];
      var rp := (if p(s[0]) then h else []) + Retain(s[1..], p);
      var rq := (if q(s[0]) then h else []) + Retain(s[1..], q);
      RetainConcat(if p(s[0]) then h else [], Retain(s[1..], p), q);
      RetainConcat(if q(s[0]) then h else [], Retain(s[1..], q), p);
      assert Retain(h, p) == (if p(s[0]) then h else []) by { assert h[1..] == []; }
      assert Retain(h, q) == (if q(s[0]) then h else []) by { assert h[1..] == []; }
    }
  }

  /** Entry ids in strictly increasing order. */
  ghost predicate IdsIncreasing(s: seq<ToastEntry>) {
    forall i, j :: 0 <= i < j < |s| ==> s[i].id < s[j].id
  }

  /** Retaining keeps the ids increasing. */
  lemma {:induction false} RetainIdsIncreasing(s: seq<ToastEntry>, keep: ToastEntry -> bool)
    requires IdsIncreasing(s)
    ensures IdsIncreasing(Retain(s, keep))
  {
    if s != [] {
      var t := s[1..];
      IdsIncreasingTail(s);
      RetainIdsIncreasing(t, keep);
      var rt := Retain(t, keep);
      if keep(s[0]) {
        forall j | 0 <= j < |rt| ensures s[0].id < rt[j].id {
          assert rt[j] in t;
          var k :| 0 <= k < |t| && t[k] == rt[j];
        }
        var r := [s[0]] + rt;
        forall i, j | 0 <= i < j < |r| ensures r[i].id < r[j].id {
          if i > 0 {
            assert r[i] == rt[i - 1] && r[j] == rt[j - 1];
          } else {
            assert r[j] == rt[j - 1];
          }
        }
      }
    }
  }

  /** The entry test of `remove_toast`. */
  function NotId(id: nat): ToastEntry -> bool {
    (e: ToastEntry) => e.id != id
  }

  /** The entry test of `cleanup`: untimed entries stay, timed ones while their expiry is after `now`. */
  function Unexpired(now: int): ToastEntry -> bool {
    (e: ToastEntry) =>
      match e.timeout
      case None => true
      case Some(t) => t > now
  }

  /** Ids are unique, so closing by id removes at most one entry. */
  lemma {:induction false} RemoveAtMostOne(s: seq<ToastEntry>, id: nat)
    requires IdsIncreasing(s)
    ensures |s| - 1 <= |Retain(s, NotId(id))|
    ensures |Retain(s, NotId(id))| < |s| <==> exists i :: 0 <= i < |s| && s[i].id == id
  {
    if s != [] {
      var t := s[1..];
      IdsIncreasingTail(s);
      RemoveAtMostOne(t, id);
      HasIdCons(s, id);
      assert Retain(s, NotId(id)) == (if s[0].id != id then [s[0]] else []) + Retain(t, NotId(id));
      if s[0].id == id {
        RetainSameLength(t, NotId(id));
      }
    }
  }

  /** The tail of an increasing list is increasing, and every id in it is above the head's. */
  lemma IdsIncreasingTail(s: seq<ToastEntry>)
    requires IdsIncreasing(s) && s != []
    ensures IdsIncreasing(s[1..])
    ensures forall i :: 0 <= i < |s[1..]| ==> s[0].id < s[1..][i].id
  {
    var t := s[1..];
    forall i, j | 0 <= i < j < |t| ensures t[i].id < t[j].id {
      assert t[i] == s[i + 1] && t[j] == s[j + 1];
    }
    forall i | 0 <= i < |t| ensures s[0].id < t[i].id {
      assert t[i] == s[i + 1];
    }
  }

  /** An id occurs in a non-empty list iff it is the head's or occurs in the tail. */
  lemma HasIdCons(s: seq<ToastEntry>, id: nat)
    requires s != []
    ensures (exists i :: 0 <= i < |s| && s[i].id == id) <==>
      s[0].id == id || exists i :: 0 <= i < |s[1..]| && s[1..][i].id == id
  {
    if exists i :: 0 <= i < |s| && s[i].id == id {
      var i :| 0 <= i < |s| && s[i].id == id;
      if i > 0 { assert s[1..][i - 1] == s[i]; }
    }
    if exists i :: 0 <= i < |s[1..]| && s[1..][i].id == id {
      var i :| 0 <= i < |s[1..]| && s[1..][i].id == id;
      assert s[i + 1] == s[1..][i];
    }
  }

  /** Every entry of `s` with an expiry has that deadline armed or pending in `t`. */
  ghost predicate AllPending(s: seq<ToastEntry>, t: Timer) {
    forall e :: e in s && e.timeout.Some? ==> Pending(t, e.timeout.value)
  }

  // ---------------------------------------------------------------------------
  // The viewer

  /**
   * The `ToastViewer` component: `alerts` are the live entries in display order,
   * `counter` the next id, `task` the deadline of the armed timer (if any) and
   * `timeouts` the heap of pending deadlines.
   */
  class ToastViewer {
    var alerts: seq<ToastEntry>
    var counter: nat
    var task: Option<int>
    var timeouts: seq<int>

    /** The scheduler part of the state. */
    ghost function Scheduler(): Timer
      reads this
    {
      Timer(task, timeouts)
    }

    /**
     * The invariant kept between messages: the heap is ordered, an unarmed viewer
     * has nothing pending, and ids are strictly increasing and below `counter`.
     */
    ghost predicate Valid()
      reads this
    {
      && Sorted(timeouts)
      && Settled(Scheduler())
      && IdsIncreasing(alerts)
      && (forall e :: e in alerts ==> e.id < counter)
    }

    /** Every live entry with an expiry still has its deadline armed or pending. */
    ghost predicate Covered()
      reads this
    {
      AllPending(alerts, Scheduler())
    }

    /** `create`: no entries, no timer, nothing pending. */
    constructor ()
      ensures Valid() && Covered()
      ensures alerts == [] && counter == 0 && task.None? && timeouts == []
    {
      alerts, counter, task, timeouts := [], 0, None, [];
    }

    /**
     * `trigger_next_cleanup`: keeps an armed timer; otherwise pops deadlines until
     * one is not past (`(deadline - now).to_std()` succeeds exactly for a
     * non-negative duration) and arms it.
     */
    method TriggerNextCleanup(now: int)
      requires Sorted(timeouts)
      modifies this`task, this`timeouts
      ensures Scheduler() == Trigger(old(Scheduler()), now)
    {
      if task.Some? {
        return;
      }
      ghost var heap := timeouts;
      ghost var popped: nat := 0;
      while timeouts != []
        invariant popped <= |heap| && timeouts == heap[popped..]
        invariant forall i :: 0 <= i < popped ==> heap[i] < now
        invariant task.None?
        decreases |timeouts|
      {
        var next := timeouts[0];
        timeouts := timeouts[1..];
        if next - now >= 0 {
          task := Some(next);
          assert FirstFuture(heap, now) == popped;
          return;
        }
        popped := popped + 1;
      }
      assert FirstFuture(heap, now) == |heap|;
    }

    /** `schedule_cleanup`: push the deadline onto the heap, then trigger. */
    method ScheduleCleanup(deadline: int, now: int)
      requires Sorted(timeouts)
      modifies this`task, this`timeouts
      ensures Scheduler() == Schedule(old(Scheduler()), deadline, now)
    {
      timeouts := Push(timeouts, deadline);
      TriggerNextCleanup(now);
    }

    /**
     * `add_toast`: the entry gets id `counter`, is appended, and its expiry (if
     * any) is scheduled. `now` is the clock `add_toast` reads for the expiry;
     * `armNow` is the later read `trigger_next_cleanup` makes for the duration.
     */
    method AddToast(toast: Toast, now: int, armNow: int)
      requires Valid()
      modifies this
      ensures Valid()
      ensures counter == old(counter) + 1
      ensures alerts == old(alerts) + [ToastEntry(old(counter), AlertOf(toast, old(counter)), Expiry(toast, now))]
      ensures Expiry(toast, now).None? ==> Scheduler() == old(Scheduler())
      ensures Expiry(toast, now).Some? ==> Scheduler() == Schedule(old(Scheduler()), Expiry(toast, now).value, armNow)
      ensures old(task).Some? ==> task == old(task)
      ensures old(Covered()) && (Expiry(toast, now).None? || armNow <= Expiry(toast, now).value) ==> Covered()
    {
      var timeout := Expiry(toast, now);
      var id := counter;
      counter := counter + 1;
      var entry := ToastEntry(id, AlertOf(toast, id), timeout);
      AppendIdsIncreasing(alerts, entry);
      ghost var before := Scheduler();
      if Covered() && (timeout.None? || armNow <= timeout.value) {
        AppendKeepsPending(alerts, entry, before, armNow);
      }
      alerts := alerts + [entry];
      if timeout.Some? {
        ScheduleCleanup(timeout.value, armNow);
      }
    }

    /** `retain_alert`: keep the entries satisfying `keep`; report whether any went. */
    method RetainAlert(keep: ToastEntry -> bool) returns (changed: bool)
      requires Valid()
      modifies this`alerts
      ensures Valid()
      ensures alerts == Retain(old(alerts), keep)
      ensures changed <==> exists i :: 0 <= i < |old(alerts)| && !keep(old(alerts)[i])
    {
      var before := |alerts|;
      RetainIdsIncreasing(alerts, keep);
      RetainSameLength(alerts, keep);
      alerts := Retain(alerts, keep);
      changed := before != |alerts|;
    }

    /** `remove_toast`: close the entry with this id, if it is still there. */
    method RemoveToast(id: nat) returns (changed: bool)
      requires Valid()
      modifies this`alerts
      ensures Valid()
      ensures alerts == Retain(old(alerts), NotId(id))
      ensures changed <==> exists i :: 0 <= i < |old(alerts)| && old(alerts)[i].id == id
      ensures |old(alerts)| - 1 <= |alerts|
      ensures old(Covered()) ==> Covered()
    {
      RemoveAtMostOne(alerts, id);
      changed := RetainAlert(NotId(id));
    }

    /**
     * `cleanup`, run when the armed timer fires: disarm, re-arm from the heap with
     * the clock `trigger_next_cleanup` reads (`armNow`), then drop the entries whose
     * expiry is not after the clock read afterwards (`now`).
     */
    method Cleanup(armNow: int, now: int) returns (changed: bool)
      requires Valid()
      modifies this`alerts, this`task, this`timeouts
      ensures Valid()
      ensures Scheduler() == Arm(old(timeouts), armNow)
      ensures alerts == Retain(old(alerts), Unexpired(now))
      ensures forall e :: e in alerts <==> e in old(alerts) && (e.timeout.None? || now < e.timeout.value)
      ensures changed <==> exists i :: 0 <= i < |old(alerts)| && old(alerts)[i].timeout.Some? && old(alerts)[i].timeout.value <= now
      ensures old(Covered()) && old(task).Some? && old(task).value <= armNow <= now ==> Covered()
    {
      ghost var fired := task;
      task := None;
      TriggerNextCleanup(armNow);
      changed := RetainAlert(Unexpired(now));
      if fired.Some? && fired.value <= armNow <= now && old(Covered()) {
        ReapKeepsPending(old(alerts), fired.value, old(timeouts), armNow, now);
      }
    }
  }

  /** Appending an entry whose id is above every present one keeps the ids increasing. */
  lemma AppendIdsIncreasing(s: seq<ToastEntry>, e: ToastEntry)
    requires IdsIncreasing(s) && forall x :: x in s ==> x.id < e.id
    ensures IdsIncreasing(s + [e]) && forall x :: x in s + [e] ==> x.id <= e.id
  {
    var r := s + [e];
    forall i, j | 0 <= i < j < |r| ensures r[i].id < r[j].id {
      assert r[i] == s[i];
      if j < |s| { assert r[j] == s[j]; }
    }
  }

  /**
   * Appending an entry to a covered list and scheduling its expiry (if any) keeps
   * the list covered, provided the expiry is not already past at the re-arm read.
   */
  lemma AppendKeepsPending(s: seq<ToastEntry>, e: ToastEntry, t: Timer, armNow: int)
    requires Sorted(t.heap) && Settled(t) && AllPending(s, t)
    requires e.timeout.None? || armNow <= e.timeout.value
    ensures AllPending(s + [e], if e.timeout.None? then t else Schedule(t, e.timeout.value, armNow))
  {
    if e.timeout.Some? {
      var d := e.timeout.value;
      ScheduleKeepsPending(t, d, armNow, d);
      forall x | Pending(t, x) ensures Pending(Schedule(t, d, armNow), x) {
        ScheduleKeepsPending(t, d, armNow, x);
      }
    }
  }

  /**
   * After a timer that fired on time (its deadline `fired` is not after the re-arm
   * clock `armNow`), re-arming and then reaping at `now` leave every remaining timed
   * entry with its deadline armed or pending.
   */
  lemma ReapKeepsPending(s: seq<ToastEntry>, fired: int, heap: seq<int>, armNow: int, now: int)
    requires fired <= armNow <= now && AllPending(s, Timer(Some(fired), heap))
    ensures AllPending(Retain(s, Unexpired(now)), Arm(heap, armNow))
  {
    forall e | e in Retain(s, Unexpired(now)) && e.timeout.Some?
      ensures Pending(Arm(heap, armNow), e.timeout.value)
    {
      RearmKeepsFuture(fired, heap, armNow, e.timeout.value);
    }
  }

  /**
   * When the re-arm clock has already passed a new toast's expiry and nothing else
   * is pending, the deadline is popped as past and no timer is armed: the entry is
   * shown with no close callback and no cleanup scheduled for it.
   */
  lemma LateArmDropsDeadline(toast: Toast, id: nat, now: int, armNow: int)
    requires Expiry(toast, now).Some? && Expiry(toast, now).value < armNow
    ensures Schedule(Timer(None, []), Expiry(toast, now).value, armNow) == Timer(None, [])
    ensures AlertOf(toast, id).onclose.None?
  {
    assert Push([], Expiry(toast, now).value) == [Expiry(toast, now).value];
  }

  /**
   * A toast whose timeout is beyond what `chrono::Duration` holds gets neither an
   * expiry nor a close callback, and survives every cleanup.
   */
  lemma OversizedTimeoutStays(toast: Toast, id: nat, now: int, later: int)
    requires toast.timeout.Some? && toast.timeout.value > MAX_CHRONO_MILLIS
    ensures Expiry(toast, now).None?
    ensures AlertOf(toast, id).onclose.None?
    ensures Unexpired(later)(ToastEntry(id, AlertOf(toast, id), Expiry(toast, now)))
  {
  }

  /** Removing the same id twice leaves the list as removing it once does. */
  lemma RemoveTwice(s: seq<ToastEntry>, id: nat)
    ensures Retain(Retain(s, NotId(id)), NotId(id)) == Retain(s, NotId(id))
  {
    RetainIdempotent(s, NotId(id));
  }

  /** An untimed entry survives every cleanup; a timed one exactly while its expiry is after `now`. */
  lemma ReapExactlyExpired(s: seq<ToastEntry>, e: ToastEntry, now: int)
    requires e in s
    ensures e.timeout.None? ==> e in Retain(s, Unexpired(now))
    ensures e.timeout.Some? ==> (e in Retain(s, Unexpired(now)) <==> now < e.timeout.value)
  {
  }

  // ---------------------------------------------------------------------------
  // The agent

  /** A yew handler id; `respondable` is `HandlerId::is_respondable`. */
  datatype HandlerId = HandlerId(index: nat, respondable: bool)

  datatype ToastAction = ShowToast(toast: Toast)

  /** What `show_toast` does: respond to a viewer, or raise the browser alert. */
  datatype Delivery = Respond(viewer: HandlerId, action: ToastAction) | Dropped(message: string)

  /** The text of the browser alert raised for a dropped toast. */
  function DropMessage(title: string): (m: string)
    ensures |m| >= |title| && m[|m| - |title|..] == title
  {
    "Dropped toast. No toast component registered. Message was: " + title
  }

  /** The `Toaster` agent: the set of connected toast viewers. */
  class Toaster {
    var viewer: set<HandlerId>

    /** Only respondable handlers are ever registered. */
    ghost predicate Valid()
      reads this
    {
      forall v :: v in viewer ==> v.respondable
    }

    constructor ()
      ensures Valid() && viewer == {}
    {
      viewer := {};
    }

    /** `connected`: register a respondable handler. */
    method Connected(id: HandlerId)
      requires Valid()
      modifies this
      ensures Valid()
      ensures viewer == if id.respondable then old(viewer) + {id} else old(viewer)
    {
      if id.respondable {
        viewer := viewer + {id};
      }
    }

    /** `disconnected`: deregister a respondable handler; unknown ones are a no-op. */
    method Disconnected(id: HandlerId)
      requires Valid()
      modifies this
      ensures Valid()
      ensures viewer == if id.respondable then old(viewer) - {id} else old(viewer)
    {
      if id.respondable {
        viewer := viewer - {id};
      }
    }

    /**
     * `show_toast`: deliver the toast to one registered viewer (which one is
     * unspecified), or drop it with an alert. Nothing is queued either way.
     */
    method ShowToast(toast: Toast) returns (out: Delivery)
      requires Valid()
      ensures viewer != {} <==> out.Respond?
      ensures out.Respond? ==> out.viewer in viewer && out.viewer.respondable && out.action == ToastAction.ShowToast(toast)
      ensures out.Dropped? ==> out.message == DropMessage(toast.title)
    {
      if viewer != {} {
        var v :| v in viewer;
        out := Respond(v, ToastAction.ShowToast(toast));
      } else {
        out := Dropped(DropMessage(toast.title));
      }
    }
  }
}
