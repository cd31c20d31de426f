/**
 * The "Note saved!" toast and its auto-dismiss timer, over a virtual clock
 * in milliseconds. The effect that owns the timer is keyed on the visibility
 * flag alone: it arms a timer when the flag turns true and drops it when the
 * flag changes, so setting the flag to true while it is already true leaves
 * the pending deadline as it was.
 */
module Toast {
  import opened Wrappers

  const DismissDelayMs := 1400

  /** Whether the toast is shown, and when its pending dismiss timer fires. */
  datatype ToastState = ToastState(visible: bool, deadline: Option<int>) {
    /** A dismiss timer is pending exactly while the toast is shown. */
    predicate Valid() {
      visible <==> deadline.Some?
    }
  }

  const Hidden := ToastState(false, None)

  /**
   * The flag is set to true at time `now`. If it was false the effect runs and
   * arms one timer for `now + DismissDelayMs`; if it was already true nothing
   * changes and the effect does not run again.
   */
  function Show(t: ToastState, now: int): (r: ToastState)
    ensures t.Valid() ==> r.Valid()
    ensures r.visible
    ensures t.visible ==> r == t
    ensures !t.visible ==> r.deadline == Some(now + DismissDelayMs)
  {
    if t.visible then t else ToastState(true, Some(now + DismissDelayMs))
  }

  /**
   * The virtual clock reaches `now`. A timer whose deadline has come fires and
   * hides the toast; its cleanup leaves no timer pending. Before that nothing
   * changes.
   */
  function Advance(t: ToastState, now: int): (r: ToastState)
    ensures t.Valid() ==> r.Valid()
    ensures r.visible ==> r == t
    ensures t.Valid() ==> (r.visible <==> t.visible && now < t.deadline.value)
  {
    match t.deadline
    case Some(d) => if d <= now then Hidden else t
    case None => t
  }

  /** What can happen to the toast: the flag is set, or the clock moves on. */
  datatype Event = ShowAt(time: int) | TickAt(time: int)

  function Step(t: ToastState, e: Event): ToastState {
    match e
    case ShowAt(now) => Show(t, now)
    case TickAt(now) => Advance(t, now)
  }

  /** The toast after a sequence of events, oldest first. */
  function Run(t: ToastState, events: seq<Event>): (r: ToastState)
    ensures t.Valid() ==> r.Valid()
    decreases |events|
  {
    if events == [] then t else Run(Step(t, events[0]), events[1..])
  }

  /** Running two traces one after the other is running their concatenation. */
  lemma {:induction false} RunAppend(t: ToastState, a: seq<Event>, b: seq<Event>)
    ensures Run(t, a + b) == Run(Run(t, a), b)
    decreases |a|
  {
    if a == [] {
      assert a + b == b;
    } else {
      assert (a + b)[1..] == a[1..] + b;
      RunAppend(Step(t, a[0]), a[1..], b);
    }
  }

  /**
   * While the toast is shown, neither showing it again nor any tick before its
   * deadline changes it: the deadline first set stands.
   */
  lemma {:induction false} DeadlineStands(t: ToastState, events: seq<Event>)
    requires t.Valid() && t.visible
    requires forall k :: 0 <= k < |events| ==> events[k].time < t.deadline.value
    ensures Run(t, events) == t
    decreases |events|
  {
    if events != [] {
      assert Step(t, events[0]) == t;
      DeadlineStands(t, events[1..]);
    }
  }

  /**
   * Shown at time `start` from hidden, the toast stays up through any events
   * before `start + DismissDelayMs` and is gone at the first tick at or after it.
   */
  lemma ShownForExactlyTheDelay(t: ToastState, start: int, events: seq<Event>, later: int)
    requires t.Valid() && !t.visible
    requires forall k :: 0 <= k < |events| ==> events[k].time < start + DismissDelayMs
    requires later >= start + DismissDelayMs
    ensures Run(Show(t, start), events).visible
    ensures Run(Show(t, start), events + [TickAt(later)]) == Hidden
  {
    var s := Show(t, start);
    DeadlineStands(s, events);
    RunAppend(s, events, [TickAt(later)]);
  }
}
