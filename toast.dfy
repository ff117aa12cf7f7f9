/**
 * The toast notifier: one shared element, a text, a `show` class, and the
 * handle of the latest hide timer. Each call cancels the timer the handle
 * names and schedules a fresh one 2600 ms later.
 */
module Toast {
  import opened Page

  const HideDelay: int := 2600

  /**
   * The toast's text and visibility, the hide timers scheduled and neither
   * fired nor cleared (id to deadline), the stored handle, the next timer id
   * the browser will hand out, and the time of the latest call.
   */
  datatype ToastState = ToastState(text: string, visible: bool, pending: map<nat, int>,
                                   handle: Option<nat>, nextId: nat, lastShown: int)

  function HandleSet(h: Option<nat>): set<nat>
  {
    if h.Some? then {h.value} else {}
  }

  /**
   * Only the timer named by the handle can be pending; it is due 2600 ms
   * after the latest call, and the toast is shown while it waits.
   */
  predicate Valid(s: ToastState)
  {
    && s.pending.Keys <= HandleSet(s.handle)
    && (s.handle.Some? ==> s.handle.value < s.nextId)
    && (s.handle.Some? && s.handle.value in s.pending ==>
          s.pending[s.handle.value] == s.lastShown + HideDelay && s.visible)
  }

  /** The state of a freshly loaded page. */
  function Initial(): (s: ToastState)
    ensures Valid(s) && !s.visible && s.pending == map[]
  {
    ToastState("", false, map[], None, 1, 0)
  }

  /** showToast(message) at time `now`; nothing happens when the page has no toast element. */
  function Show(s: ToastState, present: bool, message: string, now: int): ToastState
  {
    if !present then s
    else
      var cleared := if s.handle.Some? then s.pending - {s.handle.value} else s.pending;
      ToastState(message, true, cleared[s.nextId := now + HideDelay], Some(s.nextId), s.nextId + 1, now)
  }

  /** Timer `id` comes due; a cleared or already fired timer does nothing. */
  function Fire(s: ToastState, id: nat): ToastState
  {
    if id in s.pending then s.(visible := false, pending := s.pending - {id}) else s
  }

  datatype Event = ShowCall(message: string, now: int) | TimerDue(id: nat)

  function Step(s: ToastState, present: bool, e: Event): ToastState
  {
    match e
    case ShowCall(m, t) => Show(s, present, m, t)
    case TimerDue(id) => Fire(s, id)
  }

  function Run(s: ToastState, present: bool, es: seq<Event>): ToastState
  {
    if es == [] then s else Step(Run(s, present, es[..|es| - 1]), present, es[|es| - 1])
  }

  // ---- properties ----

  /** Valid states hold at most one pending hide timer. */
  lemma AtMostOnePending(s: ToastState)
    requires Valid(s)
    ensures |s.pending| <= 1
  {
    if s.handle.Some? && s.handle.value in s.pending {
      assert s.pending.Keys == {s.handle.value};
      assert s.pending == map[s.handle.value := s.pending[s.handle.value]];
    } else {
      assert s.pending.Keys == {};
      assert s.pending == map[];
    }
  }

  /**
   * A call shows the latest message and leaves exactly one pending timer,
   * due 2600 ms after the call.
   */
  lemma ShowReplacesTimer(s: ToastState, message: string, now: int)
    requires Valid(s)
    ensures var r := Show(s, true, message, now);
            Valid(r) && r.text == message && r.visible && r.handle == Some(s.nextId)
            && r.pending == map[s.nextId := now + HideDelay]
  {
    var r := Show(s, true, message, now);
    assert r.pending.Keys == {s.nextId};
  }

  /** A timer firing hides the toast only if it is the pending one. */
  lemma FireHidesOnlyPending(s: ToastState, id: nat)
    requires Valid(s)
    ensures Valid(Fire(s, id))
    ensures id in s.pending ==> !Fire(s, id).visible && Fire(s, id).pending == map[]
    ensures id !in s.pending ==> Fire(s, id) == s
  {
    if id in s.pending {
      assert s.pending.Keys <= {id};
      assert (s.pending - {id}).Keys == {};
    }
  }

  /** Two calls: one dismissal, timed from the second; the first call's timer no longer hides. */
  lemma TwoCallsOneDismissal(s: ToastState, m1: string, t1: int, m2: string, t2: int)
    requires Valid(s)
    ensures var first := Show(s, true, m1, t1);
            var second := Show(first, true, m2, t2);
            second.text == m2 && second.pending == map[first.nextId := t2 + HideDelay]
            && Fire(second, s.nextId) == second
  {
    ShowReplacesTimer(s, m1, t1);
    ShowReplacesTimer(Show(s, true, m1, t1), m2, t2);
  }

  /** Every sequence of calls and timer firings keeps the state valid. */
  lemma {:induction false} RunKeepsValid(s: ToastState, present: bool, es: seq<Event>)
    requires Valid(s)
    ensures Valid(Run(s, present, es))
    ensures |Run(s, present, es).pending| <= 1
  {
    if es != [] {
      var n := |es| - 1;
      RunKeepsValid(s, present, es[..n]);
      var before := Run(s, present, es[..n]);
      match es[n]
      case ShowCall(m, t) =>
        if present {
          ShowReplacesTimer(before, m, t);
        }
      case TimerDue(id) =>
        FireHidesOnlyPending(before, id);
    }
    AtMostOnePending(Run(s, present, es));
  }

  /** The toast element (when `present`) and `showToast._t`. */
  class Notifier {
    const present: bool
    var text: string
    var visible: bool
    var pending: map<nat, int>
    var handle: Option<nat>
    var nextId: nat
    var lastShown: int

    function State(): ToastState
      reads this
    {
      ToastState(text, visible, pending, handle, nextId, lastShown)
    }

    constructor (present: bool)
      ensures this.present == present && State() == Initial()
    {
      this.present := present;
      text, visible, pending, handle, nextId, lastShown := "", false, map[], None, 1, 0;
    }

    /** showToast(message) at time `now`. */
    method ShowToast(message: string, now: int)
      modifies this
      ensures State() == Show(old(State()), present, message, now)
    {
      if !present {
        return;
      }
      text := message;
      visible := true;
      if handle.Some? {
        pending := pending - {handle.value};
      }
      var id := nextId;
      nextId := nextId + 1;
      pending := pending[id := now + HideDelay];
      handle := Some(id);
      lastShown := now;
    }

    /** The browser runs timer `id`; a cleared timer is never run. */
    method TimerFired(id: nat)
      modifies this
      ensures State() == Fire(old(State()), id)
    {
      if id in pending {
        visible := false;
        pending := pending - {id};
      }
    }
  }
}
