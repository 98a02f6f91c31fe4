/** The per-device coalescing latch for notification-triggered refreshes (`_DeviceRefreshCoalescer`). */
module RefreshCoalescer {

  datatype Latch = Latch(running: bool, dirty: bool)

  /** A task that has been created and not yet run its first step, or one suspended in a refresh. */
  datatype Phase = Spawned | Refreshing

  datatype Task = Task(device: int, phase: Phase)

  datatype Observation = Triggered(device: int) | Started(device: int)

  /** The latches and the live tasks, with the triggers and refresh starts observed so far. */
  datatype State = State(latches: map<int, Latch>, tasks: map<nat, Task>, nextTask: nat, log: seq<Observation>)

  const INIT := State(map[], map[], 0, [])

  datatype Event =
    | Trigger(device: int)
    | FirstStep(task: nat)
    | RefreshEnds(task: nat)
    | CancelRefresh(task: nat)
    | CancelUnstarted(task: nat)

  function LatchOf(s: State, d: int): Latch {
    if d in s.latches then s.latches[d] else Latch(false, false)
  }

  predicate Enabled(s: State, e: Event) {
    match e
    case Trigger(_) => true
    case FirstStep(t) => t in s.tasks && s.tasks[t].phase.Spawned?
    case RefreshEnds(t) => t in s.tasks && s.tasks[t].phase.Refreshing? && s.tasks[t].device in s.latches
    case CancelRefresh(t) => t in s.tasks && s.tasks[t].phase.Refreshing? && s.tasks[t].device in s.latches
    case CancelUnstarted(t) => t in s.tasks && s.tasks[t].phase.Spawned?
  }

  /**
   One synchronous section of the event loop. A refresh ends by success or by an ordinary failure, which
   are treated alike; a cancelled refresh runs the `finally`; a task cancelled before its first step does not.
   */
  function Next(s: State, e: Event): State
    requires Enabled(s, e)
  {
    match e
    case Trigger(d) =>
      var logged := s.(log := s.log + [Triggered(d)]);
      if LatchOf(s, d).running then logged.(latches := s.latches[d := Latch(true, true)])
      else
        logged.(latches := s.latches[d := Latch(true, LatchOf(s, d).dirty)],
                tasks := s.tasks[s.nextTask := Task(d, Spawned)], nextTask := s.nextTask + 1)
    case FirstStep(t) =>
      var d := s.tasks[t].device;
      s.(tasks := s.tasks[t := Task(d, Refreshing)], log := s.log + [Started(d)])
    case RefreshEnds(t) =>
      var d := s.tasks[t].device;
      if s.latches[d].dirty then
        s.(latches := s.latches[d := s.latches[d].(dirty := false)], log := s.log + [Started(d)])
      else
        s.(latches := s.latches[d := s.latches[d].(running := false)], tasks := s.tasks - {t})
    case CancelRefresh(t) =>
      var d := s.tasks[t].device;
      s.(latches := s.latches[d := s.latches[d].(running := false)], tasks := s.tasks - {t})
    case CancelUnstarted(t) => s.(tasks := s.tasks - {t})
  }

  predicate IsRun(s: State, events: seq<Event>, s': State)
    decreases |events|
  {
    if events == [] then s == s' else Enabled(s, events[0]) && IsRun(Next(s, events[0]), events[1..], s')
  }

  // ---- the imperative form ----

  /** The coalescer object: `trigger`, and `_run` cut at its suspension points. */
  class Coalescer {
    var latches: map<int, Latch>
    var tasks: map<nat, Task>
    var nextTask: nat
    ghost var log: seq<Observation>

    ghost function View(): State
      reads this
    {
      State(latches, tasks, nextTask, log)
    }

    constructor ()
      ensures View() == INIT
    {
      latches, tasks, nextTask, log := map[], map[], 0, [];
    }

    method Trigger(device: int)
      modifies this
      ensures View() == Next(old(View()), Event.Trigger(device))
    {
      log := log + [Triggered(device)];
      if device !in latches {
        latches := latches[device := Latch(false, false)];
      }
      if latches[device].running {
        latches := latches[device := latches[device].(dirty := true)];
        return;
      }
      latches := latches[device := latches[device].(running := true)];
      tasks := tasks[nextTask := Task(device, Spawned)];
      nextTask := nextTask + 1;
    }

    method FirstStep(task: nat)
      requires Enabled(View(), Event.FirstStep(task))
      modifies this
      ensures View() == Next(old(View()), Event.FirstStep(task))
    {
      tasks := tasks[task := tasks[task].(phase := Refreshing)];
      log := log + [Started(tasks[task].device)];
    }

    method RefreshEnds(task: nat)
      requires Enabled(View(), Event.RefreshEnds(task))
      modifies this
      ensures View() == Next(old(View()), Event.RefreshEnds(task))
    {
      var device := tasks[task].device;
      if latches[device].dirty {
        latches := latches[device := latches[device].(dirty := false)];
        log := log + [Started(device)];
      } else {
        latches := latches[device := latches[device].(running := false)];
        tasks := tasks - {task};
      }
    }

    method CancelRefresh(task: nat)
      requires Enabled(View(), Event.CancelRefresh(task))
      modifies this
      ensures View() == Next(old(View()), Event.CancelRefresh(task))
    {
      var device := tasks[task].device;
      latches := latches[device := latches[device].(running := false)];
      tasks := tasks - {task};
    }
  }

  // ---- at most one refresh per device, and no more refreshes than triggers ----

  function Count(log: seq<Observation>, o: Observation): nat {
    if log == [] then 0 else Count(log[..|log| - 1], o) + (if log[|log| - 1] == o then 1 else 0)
  }

  lemma CountAppend(log: seq<Observation>, x: Observation, o: Observation)
    ensures Count(log + [x], o) == Count(log, o) + (if x == o then 1 else 0)
  {
    assert (log + [x])[..|log|] == log;
  }

  ghost predicate Live(s: State, d: int) {
    exists t :: t in s.tasks && s.tasks[t].device == d
  }

  ghost predicate Waiting(s: State, d: int) {
    exists t :: t in s.tasks && s.tasks[t] == Task(d, Spawned)
  }

  ghost predicate Exclusive(s: State) {
    && (forall t :: t in s.tasks ==> t < s.nextTask && LatchOf(s, s.tasks[t].device).running)
    && (forall t, u :: t in s.tasks && u in s.tasks && t != u ==> s.tasks[t].device != s.tasks[u].device)
  }

  ghost predicate Thrifty(s: State, d: int) {
    Count(s.log, Started(d)) + (if Waiting(s, d) then 1 else 0) + (if LatchOf(s, d).dirty then 1 else 0)
    <= Count(s.log, Triggered(d))
  }

  lemma EventKeepsExclusive(s: State, e: Event)
    requires Exclusive(s) && Enabled(s, e)
    ensures Exclusive(Next(s, e))
  {
  }

  /** For another device nothing changes but the length of the log. */
  function EventDevice(s: State, e: Event): int
    requires Enabled(s, e)
  {
    match e case Trigger(d) => d case _ => s.tasks[e.task].device
  }

  lemma OtherDevice(s: State, e: Event, d: int)
    requires Exclusive(s) && Enabled(s, e) && EventDevice(s, e) != d
    ensures Waiting(Next(s, e), d) <==> Waiting(s, d)
    ensures Live(Next(s, e), d) <==> Live(s, d)
    ensures LatchOf(Next(s, e), d) == LatchOf(s, d)
    ensures forall o: Observation :: o.device == d ==> Count(Next(s, e).log, o) == Count(s.log, o)
  {
    var s' := Next(s, e);
    if t :| t in s.tasks && s.tasks[t].device == d {
      assert t in s'.tasks && s'.tasks[t] == s.tasks[t];
    }
    forall o: Observation | o.device == d ensures Count(s'.log, o) == Count(s.log, o) {
      if s'.log != s.log {
        CountAppend(s.log, s'.log[|s.log|], o);
      }
    }
  }

  lemma TriggerKeepsThrifty(s: State, d: int)
    requires Exclusive(s) && Thrifty(s, d)
    ensures Thrifty(Next(s, Trigger(d)), d)
  {
    CountAppend(s.log, Triggered(d), Started(d));
    CountAppend(s.log, Triggered(d), Triggered(d));
  }

  lemma TaskKeepsThrifty(s: State, e: Event, d: int)
    requires Exclusive(s) && Thrifty(s, d) && !e.Trigger? && Enabled(s, e) && s.tasks[e.task].device == d
    ensures Thrifty(Next(s, e), d)
  {
    hide Count;
    var t := e.task;
    assert e.FirstStep? || e.CancelUnstarted? ==> Waiting(s, d) by {
      assert s.tasks[t].phase.Spawned? ==> s.tasks[t] == Task(d, Spawned);
    }
    assert !Waiting(Next(s, e), d);
    CountAppend(s.log, Started(d), Started(d));
    CountAppend(s.log, Started(d), Triggered(d));
  }

  lemma EventKeepsThrifty(s: State, e: Event, d: int)
    requires Exclusive(s) && Thrifty(s, d) && Enabled(s, e)
    ensures Thrifty(Next(s, e), d)
  {
    hide Count, Waiting, Exclusive, LatchOf;
    if EventDevice(s, e) != d {
      OtherDevice(s, e, d);
    } else if e.Trigger? {
      TriggerKeepsThrifty(s, d);
    } else {
      TaskKeepsThrifty(s, e, d);
    }
  }

  lemma {:induction false} RunKeepsThrifty(s: State, events: seq<Event>, s': State, d: int)
    requires Exclusive(s) && Thrifty(s, d) && IsRun(s, events, s')
    ensures Exclusive(s') && Thrifty(s', d)
    decreases |events|
  {
    if events != [] {
      EventKeepsExclusive(s, events[0]);
      EventKeepsThrifty(s, events[0], d);
      RunKeepsThrifty(Next(s, events[0]), events[1..], s', d);
    }
  }

  /** In every run a device has at most one live task, and refreshes never outnumber triggers. */
  lemma AtMostOneRefresh(events: seq<Event>, s: State, d: int)
    requires IsRun(INIT, events, s)
    ensures forall t, u :: t in s.tasks && u in s.tasks && s.tasks[t].device == s.tasks[u].device ==> t == u
    ensures Count(s.log, Started(d)) <= Count(s.log, Triggered(d))
  {
    RunKeepsThrifty(INIT, events, s, d);
  }

  // ---- no trigger is lost ----

  /** Every trigger of d is followed by the start of a refresh. */
  ghost predicate Covered(log: seq<Observation>, d: int) {
    forall i :: 0 <= i < |log| && log[i] == Triggered(d) ==> exists j :: i < j < |log| && log[j] == Started(d)
  }

  lemma CoveredExtends(log: seq<Observation>, x: Observation, d: int)
    ensures Covered(log, d) && x != Triggered(d) ==> Covered(log + [x], d)
    ensures Covered(log + [Started(d)], d)
  {
    if Covered(log, d) && x != Triggered(d) {
      forall i | 0 <= i < |log + [x]| && (log + [x])[i] == Triggered(d)
        ensures exists j :: i < j < |log + [x]| && (log + [x])[j] == Started(d)
      {
        var j :| i < j < |log| && log[j] == Started(d);
        assert (log + [x])[j] == Started(d);
      }
    }
    assert (log + [Started(d)])[|log|] == Started(d);
  }

  /** An uncovered trigger is remembered, by a task that has yet to start or by the dirty edge. */
  ghost predicate Remembered(s: State, d: int) {
    Covered(s.log, d) || Waiting(s, d) || LatchOf(s, d).dirty
  }

  lemma EventKeepsRemembered(s: State, e: Event, d: int)
    requires Exclusive(s) && Remembered(s, d) && Enabled(s, e)
    requires e.CancelUnstarted? ==> s.tasks[e.task].device != d
    ensures Remembered(Next(s, e), d)
  {
    var s' := Next(s, e);
    if EventDevice(s, e) != d {
      OtherDevice(s, e, d);
      if s'.log != s.log {
        CoveredExtends(s.log, s'.log[|s.log|], d);
      }
    } else {
      match e
      case Trigger(_) =>
        if !LatchOf(s, d).running {
          assert s'.tasks[s.nextTask] == Task(d, Spawned);
        }
      case FirstStep(_) => CoveredExtends(s.log, Started(d), d);
      case RefreshEnds(_) => CoveredExtends(s.log, Started(d), d);
      case CancelRefresh(_) =>
      case CancelUnstarted(_) =>
    }
  }

  /** The latch is closed and nobody is left to open it. */
  ghost predicate Wedged(s: State, d: int) {
    LatchOf(s, d).running && !Live(s, d)
  }

  lemma EventKeepsUnwedged(s: State, e: Event, d: int)
    requires Exclusive(s) && !Wedged(s, d) && Enabled(s, e)
    requires e.CancelUnstarted? ==> s.tasks[e.task].device != d
    ensures !Wedged(Next(s, e), d)
  {
    var s' := Next(s, e);
    if EventDevice(s, e) != d {
      OtherDevice(s, e, d);
    } else {
      match e
      case Trigger(_) =>
        if LatchOf(s, d).running {
          var t :| t in s.tasks && s.tasks[t].device == d;
          assert t in s'.tasks && s'.tasks[t].device == d;
        } else {
          assert s'.tasks[s.nextTask].device == d;
        }
      case FirstStep(t) => assert s'.tasks[t].device == d;
      case RefreshEnds(t) => assert s.latches[d].dirty ==> s'.tasks[t].device == d;
      case _ =>
    }
  }

  /** A dirty edge is set only while the latch is closed. */
  ghost predicate EdgeInside(s: State, d: int) {
    LatchOf(s, d).dirty ==> LatchOf(s, d).running
  }

  lemma EventKeepsEdgeInside(s: State, e: Event, d: int)
    requires Exclusive(s) && EdgeInside(s, d) && Enabled(s, e)
    requires e.CancelRefresh? ==> s.tasks[e.task].device != d
    ensures EdgeInside(Next(s, e), d)
  {
    if EventDevice(s, e) != d {
      OtherDevice(s, e, d);
    }
  }

  /** Which cancellations of d's tasks a run contains. */
  predicate Spared(s: State, events: seq<Event>, d: int, refreshesToo: bool)
    decreases |events|
  {
    events != [] ==>
      && Enabled(s, events[0])
      && (events[0].CancelUnstarted? || (refreshesToo && events[0].CancelRefresh?) ==>
            s.tasks[events[0].task].device != d)
      && Spared(Next(s, events[0]), events[1..], d, refreshesToo)
  }

  lemma {:induction false} RunRemembers(s: State, events: seq<Event>, s': State, d: int, refreshesToo: bool)
    requires Exclusive(s) && Remembered(s, d) && !Wedged(s, d)
    requires IsRun(s, events, s') && Spared(s, events, d, refreshesToo)
    requires refreshesToo ==> EdgeInside(s, d)
    ensures Remembered(s', d) && !Wedged(s', d)
    ensures refreshesToo ==> EdgeInside(s', d)
    decreases |events|
  {
    hide Remembered, Wedged, EdgeInside, Exclusive;
    if events != [] {
      EventKeepsExclusive(s, events[0]);
      EventKeepsRemembered(s, events[0], d);
      EventKeepsUnwedged(s, events[0], d);
      if refreshesToo {
        EventKeepsEdgeInside(s, events[0], d);
      }
      RunRemembers(Next(s, events[0]), events[1..], s', d, refreshesToo);
    }
  }

  /** In a quiet state reached without cancelling d's tasks, a refresh started after every trigger of d. */
  lemma EveryTriggerRefreshed(events: seq<Event>, s: State, d: int)
    requires IsRun(INIT, events, s) && Spared(INIT, events, d, true) && !Live(s, d)
    ensures Covered(s.log, d)
  {
    RunRemembers(INIT, events, s, d, true);
  }

  /**
   Cancelling refreshes loses no edge and closes no latch: a quiet device with an unanswered trigger is
   still marked dirty, and the next trigger starts a task that will find the mark.
   */
  lemma CancelledRefreshKeepsEdge(events: seq<Event>, s: State, d: int)
    requires IsRun(INIT, events, s) && Spared(INIT, events, d, false) && !Live(s, d)
    ensures Covered(s.log, d) || LatchOf(s, d).dirty
    ensures var s' := Next(s, Trigger(d)); Waiting(s', d) && LatchOf(s', d).dirty == LatchOf(s, d).dirty
  {
    RunRemembers(INIT, events, s, d, false);
    assert Next(s, Trigger(d)).tasks[s.nextTask] == Task(d, Spawned);
  }

  // ---- sparing unstarted tasks is needed ----

  lemma {:induction false} WedgedForever(s: State, events: seq<Event>, s': State, d: int)
    requires Exclusive(s) && Wedged(s, d) && IsRun(s, events, s')
    ensures Wedged(s', d) && Count(s'.log, Started(d)) == Count(s.log, Started(d))
    decreases |events|
  {
    if events != [] {
      var e := events[0];
      if EventDevice(s, e) != d {
        OtherDevice(s, e, d);
      } else {
        assert e.Trigger?;
        CountAppend(s.log, Triggered(d), Started(d));
      }
      EventKeepsExclusive(s, e);
      WedgedForever(Next(s, e), events[1..], s', d);
    }
  }

  /**
   Cancelling a task before its first step skips its `finally`: the latch stays closed and no refresh of
   that device ever starts again, whatever happens next.
   */
  lemma UnstartedCancelWedges(events: seq<Event>, s: State, t: nat, later: seq<Event>, s': State)
    requires IsRun(INIT, events, s) && Enabled(s, CancelUnstarted(t))
    requires IsRun(Next(s, CancelUnstarted(t)), later, s')
    ensures var d := s.tasks[t].device;
      Wedged(s', d) && Count(s'.log, Started(d)) == Count(s.log, Started(d))
  {
    var d := s.tasks[t].device;
    RunKeepsThrifty(INIT, events, s, d);
    EventKeepsExclusive(s, CancelUnstarted(t));
    WedgedForever(Next(s, CancelUnstarted(t)), later, s', d);
  }

  /** A latch is wedged exactly when such a cancellation happened to a task of that device. */
  lemma {:induction false} WedgedIff(s: State, events: seq<Event>, s': State, d: int)
    requires Exclusive(s) && !Wedged(s, d) && IsRun(s, events, s')
    ensures Wedged(s', d) <==> !Spared(s, events, d, false)
    decreases |events|
  {
    hide Exclusive, Wedged;
    if events != [] {
      var e := events[0];
      EventKeepsExclusive(s, e);
      if e.CancelUnstarted? && s.tasks[e.task].device == d {
        CancelUnstartedWedges(s, e.task);
        WedgedForever(Next(s, e), events[1..], s', d);
      } else {
        EventKeepsUnwedged(s, e, d);
        WedgedIff(Next(s, e), events[1..], s', d);
      }
    }
  }

  lemma CancelUnstartedWedges(s: State, t: nat)
    requires Exclusive(s) && Enabled(s, CancelUnstarted(t))
    ensures Wedged(Next(s, CancelUnstarted(t)), s.tasks[t].device)
  {
  }
}
