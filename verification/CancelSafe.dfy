/** Running a span to completion while absorbing cancellation of the caller (`await_uncancellable`). */
module CancelSafe {
  import opened Options

  datatype Span<+V, +E> = Running | Finished(value: V) | Failed(error: E) | SpanCancelled

  datatype Outcome<+V, +E> = Value(value: V) | Error(error: E) | Cancelled

  /**
   What happens outside the caller, by event-loop tick: whether a cancellation of the caller is delivered,
   the state of the span, and the state of the span once the caller has cancelled it.
   */
  datatype World<V, E> = World(cancels: nat -> bool, span: nat -> Span<V, E>, drained: nat -> Span<V, E>)

  /** A span that is done stays as it is. */
  ghost predicate Settles<V(!new), E(!new)>(span: nat -> Span<V, E>) {
    forall t, u :: t <= u && !span(t).Running? ==> span(u) == span(t)
  }

  ghost predicate Interrupted<V, E>(w: World<V, E>, start: nat, end: nat) {
    exists t :: start < t <= end && w.cancels(t)
  }

  ghost predicate FirstCancel<V, E>(w: World<V, E>, start: nat, c: nat) {
    start < c && w.cancels(c) && forall t :: start < t < c ==> !w.cancels(t)
  }

  /** A quiet tick past the absorb deadline, which runs from the first cancellation. */
  ghost predicate Due<V, E>(w: World<V, E>, start: nat, absorb: nat, t: nat) {
    !w.cancels(t) && exists c: nat :: FirstCancel(w, start, c) && c < t && c + absorb <= t
  }

  ghost predicate RunningUntil<V, E>(span: nat -> Span<V, E>, start: nat, end: nat) {
    forall t :: start <= t < end ==> span(t).Running?
  }

  function OutcomeOf<V, E>(span: Span<V, E>): Outcome<V, E>
    requires !span.Running?
  {
    match span
    case Finished(value) => Value(value)
    case Failed(error) => Error(error)
    case SpanCancelled => Cancelled
  }

  /** Cancellations stop at some tick, and by then the caller was cancelled or the span is done. */
  ghost predicate Quiet<V, E>(w: World<V, E>, start: nat, quiet: nat) {
    && (forall t :: t > quiet ==> !w.cancels(t))
    && (!w.span(quiet).Running? || Interrupted(w, start, quiet))
  }

  function Max(a: nat, b: nat): nat {
    if a < b then b else a
  }

  /** What ends a suspension: a cancellation of the caller, the end of the span, or the timeout. */
  predicate Wakes<V, E>(cancels: nat -> bool, span: nat -> Span<V, E>, until: Option<nat>, t: nat) {
    cancels(t) || !span(t).Running? || (until.Some? && until.value <= t)
  }

  /** Nothing strictly between the two ticks ends the suspension. */
  ghost predicate Asleep<V, E>(cancels: nat -> bool, span: nat -> Span<V, E>, until: Option<nat>, now: nat, end: nat) {
    forall t :: now < t < end ==> !cancels(t) && span(t).Running? && (until.Some? ==> t < until.value)
  }

  /** The first tick by the horizon that ends the suspension, if there is one. */
  method Suspend<V, E>(cancels: nat -> bool, span: nat -> Span<V, E>, now: nat, until: Option<nat>, horizon: nat)
    returns (wake: Option<nat>)
    ensures wake.Some? ==> now < wake.value <= horizon && Wakes(cancels, span, until, wake.value)
    ensures Asleep(cancels, span, until, now, if wake.Some? then wake.value else horizon + 1)
  {
    var t := now + 1;
    while t <= horizon
      invariant now < t && (t <= horizon + 1 || t == now + 1) && Asleep(cancels, span, until, now, t)
    {
      if Wakes(cancels, span, until, t) {
        return Some(t);
      }
      t := t + 1;
    }
    wake := None;
  }

  function Until(deadline: Option<nat>, now: nat): Option<nat> {
    if deadline.None? then None else Some(Max(deadline.value, now))
  }

  /** What the wait loop has established whenever it is at its head. */
  ghost predicate Waiting<V, E>(w: World<V, E>, start: nat, absorb: nat, now: nat,
                                cancelled: bool, deadline: Option<nat>, expired: bool)
  {
    && start <= now && RunningUntil(w.span, start, now)
    && (forall t :: start <= t < now ==> !Due(w, start, absorb, t))
    && (cancelled <==> Interrupted(w, start, now))
    && (cancelled <==> deadline.Some?)
    && (deadline.Some? ==> exists c: nat :: FirstCancel(w, start, c) && c <= now && deadline.value == c + absorb)
    && (expired ==> cancelled && w.span(now).Running?)
    && (expired <==> w.span(now).Running? && Due(w, start, absorb, now))
    && (!cancelled && w.span(now).Running? ==> now == start)
  }

  lemma WakeKeepsWaiting<V(!new), E(!new)>(w: World<V, E>, start: nat, absorb: nat, now: nat, cancelled: bool,
                                           deadline: Option<nat>, wake: nat)
    requires Settles(w.span)
    requires Waiting(w, start, absorb, now, cancelled, deadline, false) && w.span(now).Running?
    requires now < wake && Wakes(w.cancels, w.span, Until(deadline, now), wake)
    requires Asleep(w.cancels, w.span, Until(deadline, now), now, wake)
    ensures w.cancels(wake) ==>
      Waiting(w, start, absorb, wake, true, if deadline.Some? then deadline else Some(wake + absorb), false)
    ensures !w.cancels(wake) ==>
      Waiting(w, start, absorb, wake, cancelled, deadline, w.span(wake).Running?)
  {
    WakeInterrupts(w, start, now, wake);
    assert forall t :: start <= t < wake ==> w.span(t).Running?;
    if cancelled {
      var c: nat :| FirstCancel(w, start, c) && c <= now && deadline.value == c + absorb;
      FirstCancelUnique(w, start, c);
    } else {
      forall c: nat | FirstCancel(w, start, c) ensures wake <= c {}
      if w.cancels(wake) {
        assert FirstCancel(w, start, wake);
      }
    }
  }

  lemma WakeInterrupts<V, E>(w: World<V, E>, start: nat, now: nat, wake: nat)
    requires start <= now < wake && forall t :: now < t < wake ==> !w.cancels(t)
    ensures Interrupted(w, start, wake) <==> Interrupted(w, start, now) || w.cancels(wake)
  {
  }

  lemma FirstCancelUnique<V, E>(w: World<V, E>, start: nat, c: nat)
    requires FirstCancel(w, start, c)
    ensures forall d: nat :: FirstCancel(w, start, d) ==> d == c
  {
  }

  /** The span is asked to stop at the first quiet tick past the deadline, while it is running. */
  ghost predicate Requests<V, E>(w: World<V, E>, start: nat, absorb: nat, r: nat) {
    && start < r && RunningUntil(w.span, start, r + 1)
    && Due(w, start, absorb, r) && (forall t :: start <= t < r ==> !Due(w, start, absorb, t))
  }

  /** Nothing by the horizon has ended the wait. */
  ghost predicate Pending<V, E>(w: World<V, E>, start: nat, absorb: nat, drain: nat, horizon: nat, requested: Option<nat>) {
    match requested
    case None => RunningUntil(w.span, start, horizon + 1) && forall t :: start <= t <= horizon ==> !Due(w, start, absorb, t)
    case Some(r) =>
      && Requests(w, start, absorb, r) && r <= horizon
      && Asleep(w.cancels, w.drained, Some(r + drain), r, horizon + 1)
  }

  lemma AsleepPending<V(!new), E(!new)>(w: World<V, E>, start: nat, absorb: nat, drain: nat, now: nat, cancelled: bool,
                                        deadline: Option<nat>, horizon: nat)
    requires Waiting(w, start, absorb, now, cancelled, deadline, false) && w.span(now).Running? && now <= horizon
    requires Asleep(w.cancels, w.span, Until(deadline, now), now, horizon + 1)
    ensures Pending(w, start, absorb, drain, horizon, None)
  {
    forall t | start <= t <= horizon ensures w.span(t).Running? && !Due(w, start, absorb, t) {
      if now < t {
        if c: nat :| FirstCancel(w, start, c) && c < t && c + absorb <= t {
          assert c <= now;
          assert Interrupted(w, start, now);
          FirstCancelUnique(w, start, c);
        }
      }
    }
  }

  /**
   The caller outlives its span, whatever is cancelled and for however long. Without a request to cancel the span, the
   caller ends at the very tick the span is done, and reports what the span did unless a cancellation was absorbed, which
   always wins. The span is cancelled exactly at the first quiet tick past the absorb deadline, if it is still running
   then; the caller then stays until the span is done, the drain timeout passes or another cancellation arrives. What has
   happened by the horizon is reported, and a wait that goes on is one that nothing has ended. The loop goes round at most
   twice more than it absorbs cancellations.
   */
  method AwaitUncancellable<V(!new), E(!new)>(w: World<V, E>, start: nat, absorb: nat, drain: nat, horizon: nat)
    returns (outcome: Option<Outcome<V, E>>, end: nat, requested: Option<nat>, absorbed: nat, rounds: nat)
    requires Settles(w.span) && Settles(w.drained) && start <= horizon
    ensures outcome.None? ==> Pending(w, start, absorb, drain, horizon, requested)
    ensures outcome.Some? ==> start <= end <= horizon
    ensures outcome.Some? && requested.None? ==>
      && RunningUntil(w.span, start, end) && !w.span(end).Running?
      && (forall t :: start <= t < end ==> !Due(w, start, absorb, t))
      && outcome.value == (if Interrupted(w, start, end) then Cancelled else OutcomeOf(w.span(end)))
    ensures outcome.Some? && requested.Some? ==>
      && var r := requested.value;
      && r < end && Requests(w, start, absorb, r)
      && outcome.value == Cancelled
      && Asleep(w.cancels, w.drained, Some(r + drain), r, end) && Wakes(w.cancels, w.drained, Some(r + drain), end)
    ensures rounds <= absorbed + 2 && (absorbed > 0 && outcome.Some? ==> outcome.value == Cancelled)
  {
    var now: nat := start;
    var cancelled, expired := false, false;
    var deadline: Option<nat> := None;
    end, requested, absorbed, rounds := start, None, 0, 0;
    while w.span(now).Running?
      invariant now <= horizon
      invariant Waiting(w, start, absorb, now, cancelled, deadline, expired)
      invariant requested.None? && (absorbed > 0 ==> cancelled)
      invariant rounds <= absorbed + (if expired then 1 else 0) + (if w.span(now).Running? then 0 else 1)
      decreases horizon - now
    {
      rounds := rounds + 1;
      if expired {
        requested := Some(now);
        var done := Suspend(w.cancels, w.drained, now, Some(now + drain), horizon);
        return if done.Some? then Some(Cancelled) else None, if done.Some? then done.value else horizon, requested, absorbed, rounds;
      }
      var wake := Suspend(w.cancels, w.span, now, Until(deadline, now), horizon);
      if wake.None? {
        AsleepPending(w, start, absorb, drain, now, cancelled, deadline, horizon);
        return None, horizon, None, absorbed, rounds;
      }
      var t := wake.value;
      WakeKeepsWaiting(w, start, absorb, now, cancelled, deadline, t);
      if w.cancels(t) {
        if w.span(t).SpanCancelled? {
          return Some(Cancelled), t, None, absorbed, rounds;
        }
        cancelled, absorbed := true, absorbed + 1;
        if deadline.None? {
          deadline := Some(t + absorb);
        }
      } else if deadline.None? && w.span(t).Failed? {
        return Some(Error(w.span(t).error)), t, None, absorbed, rounds;
      } else if deadline.None? && w.span(t).SpanCancelled? {
        return Some(Cancelled), t, None, absorbed, rounds;
      } else if w.span(t).Running? {
        expired := true;
      }
      now := t;
    }
    end := now;
    outcome := Some(match w.span(now)
      case Failed(error) => if cancelled then Cancelled else Error(error)
      case SpanCancelled => Cancelled
      case Finished(value) => if cancelled || expired then Cancelled else Value(value)
      case Running => Cancelled);
  }

  /** Once cancellations have stopped, and the caller was cancelled or the span is done, the wait ends within its timeouts. */
  lemma QuietEnds<V(!new), E(!new)>(w: World<V, E>, start: nat, absorb: nat, drain: nat, horizon: nat, requested: Option<nat>,
                                    quiet: nat)
    requires Settles(w.span) && Quiet(w, start, quiet) && start <= quiet && quiet + absorb + drain + 2 <= horizon
    ensures !Pending(w, start, absorb, drain, horizon, requested)
  {
    match requested
    case None =>
      if RunningUntil(w.span, start, horizon + 1) {
        QuietDue(w, start, absorb, quiet);
      }
    case Some(r) =>
      if Requests(w, start, absorb, r) {
        QuietRequests(w, start, absorb, quiet, r);
        assert !w.cancels(horizon);
      }
  }

  lemma QuietDue<V, E>(w: World<V, E>, start: nat, absorb: nat, quiet: nat)
    requires Quiet(w, start, quiet) && w.span(quiet).Running?
    ensures Due(w, start, absorb, quiet + absorb + 1)
  {
    var c := FirstInterruption(w, start, quiet);
  }

  lemma QuietRequests<V, E>(w: World<V, E>, start: nat, absorb: nat, quiet: nat, r: nat)
    requires Quiet(w, start, quiet) && start <= quiet && Requests(w, start, absorb, r)
    ensures r <= quiet + absorb + 1
  {
    var c: nat :| FirstCancel(w, start, c) && c < r && c + absorb <= r;
    assert c <= quiet;
    assert Due(w, start, absorb, quiet + absorb + 1);
  }

  lemma FirstInterruption<V, E>(w: World<V, E>, start: nat, end: nat) returns (c: nat)
    requires Interrupted(w, start, end)
    ensures FirstCancel(w, start, c) && c <= end
  {
    c := start + 1;
    while !w.cancels(c)
      invariant start < c <= end && Interrupted(w, start, end)
      invariant forall t :: start < t < c ==> !w.cancels(t)
      decreases end - c
    {
      c := c + 1;
    }
  }
}
