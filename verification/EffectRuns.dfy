/**
 * Which events run an effect: the accounting of its callback's runs over whole histories,
 * without debounce, when triggers run at once and when they wait for a microtask.
 */
module EffectRuns {
  import opened Wrappers
  import opened WatchEffect

  /** The callback that the event may run returns or suspends, and leaves its effect alone. */
  predicate CalmEvent(e: Event) {
    e.Triggered? || e.TimerDue? || e.Microtask? || e.Resumed? ==> Calm(e.body)
  }

  predicate AllCalm(events: seq<Event>) {
    forall i :: 0 <= i < |events| ==> CalmEvent(events[i])
  }

  function RegisteredBy(actions: seq<Action>): seq<Cleanup> {
    if actions == [] then []
    else (if actions[0].Register? then [actions[0].cleanup] else []) + RegisteredBy(actions[1..])
  }

  lemma {:induction false} FirstRegistered(actions: seq<Action>)
    requires actions != [] && actions[0].Register?
    ensures RegisteredBy(actions) == [actions[0].cleanup] + RegisteredBy(actions[1..])
  {
  }

  lemma Joined<T>(a: seq<T>, b: seq<T>, c: seq<T>)
    ensures a + b + c == a + (b + c)
  {
  }

  lemma {:induction false} CalmRegisters(s: State, generation: nat, actions: seq<Action>)
    requires s.isActive && generation == s.generation
    requires forall i :: 0 <= i < |actions| ==> actions[i].Register?
    ensures var s' := ActAll(s, generation, actions);
            s' == s.(cleanups := s.cleanups + RegisteredBy(actions),
                     registered := s.registered + RegisteredBy(actions))
    decreases |actions|
  {
    if actions == [] {
      assert s.cleanups + [] == s.cleanups && s.registered + [] == s.registered;
    } else {
      var c := actions[0].cleanup;
      var s1 := Act(s, generation, actions[0]);
      assert s1 == s.(cleanups := s.cleanups + [c], registered := s.registered + [c]);
      hide Act, RegisteredBy;
      CalmRegisters(s1, generation, actions[1..]);
      FirstRegistered(actions);
      Joined(s.cleanups, [c], RegisteredBy(actions[1..]));
      Joined(s.registered, [c], RegisteredBy(actions[1..]));
    }
  }

  /**
   * The effect `s` ran `body` at `now` and came to be `s'`: one more run, the cleanups that
   * waited have run, and only what this run registered and read is held.
   */
  ghost predicate RanOnce(s: State, s': State, body: Body, now: int) {
    && s'.runs == s.runs + [now] && s'.isActive && !s'.isPaused && !s'.isScheduled
    && s'.subscriptions == body.deps
    && s'.cleanups == RegisteredBy(body.actions) && s'.ran == s.ran + s.cleanups
  }

  lemma {:induction false} CalmRun(s: State, body: Body, now: int)
    requires Calm(body) && s.isActive && !s.isPaused
    ensures var s' := Execute(s, body, now).0;
            RanOnce(s, s', body, now) && s'.queued == s.queued && s'.timer == s.timer
  {
    var begun := RunCleanups(s).(isScheduled := false, generation := s.generation + 1, subscriptions := [],
                                 runs := s.runs + [now]);
    CalmRegisters(begun, begun.generation, body.actions);
    assert [] + RegisteredBy(body.actions) == RegisteredBy(body.actions);
    assert [] + body.deps == body.deps;
  }

  /** A run that throws keeps nothing: what it had registered by then has run, and nothing is subscribed. */
  lemma {:induction false} ThrowingRun(s: State, body: Body, now: int)
    requires Balanced(s) && s.isActive && !s.isPaused && body.ending.Throws?
    ensures var (s', threw) := Execute(s, body, now);
            && threw && s'.runs == s.runs + [now] && s'.cleanups == [] && s'.subscriptions == []
            && multiset(s'.ran) == multiset(s'.registered)
  {
    ExecuteBalanced(s, body, now);
    var begun := RunCleanups(s).(isScheduled := false, generation := s.generation + 1, subscriptions := [],
                                 runs := s.runs + [now]);
    ActAllBalanced(begun, begun.generation, body.actions);
  }

  lemma {:induction false} ActAllCounts(s: State, generation: nat, actions: seq<Action>)
    ensures var s' := ActAll(s, generation, actions);
            s'.generation == s.generation && s'.runs == s.runs
    decreases |actions|
  {
    if actions != [] {
      ActAllCounts(Act(s, generation, actions[0]), generation, actions[1..]);
    }
  }

  lemma {:induction false} ExecuteCounts(s: State, body: Body, now: int)
    requires s.generation == |s.runs|
    ensures Execute(s, body, now).0.generation == |Execute(s, body, now).0.runs|
  {
    var begun := RunCleanups(s).(isScheduled := false, generation := s.generation + 1, subscriptions := [],
                                 runs := s.runs + [now]);
    ActAllCounts(begun, begun.generation, body.actions);
  }

  lemma {:induction false} NextCounts(o: Options, s: State, e: Event)
    requires s.generation == |s.runs|
    ensures Next(o, s, e).generation == |Next(o, s, e).runs|
  {
    hide Execute;
    match e
    case Triggered(body, at) => ExecuteCounts(s, body, at);
    case TimerDue(body, at) => ExecuteCounts(s.(timer := None, isScheduled := false, sawTrigger := false), body, at);
    case Microtask(body, at) =>
      if s.queued > 0 {
        ExecuteCounts(s.(queued := s.queued - 1), body, at);
      }
    case Resumed(body, at) => ExecuteCounts(s.(isPaused := false), body, at);
    case Stopped =>
    case Paused =>
    case Late(_, _) =>
  }

  /** Generations number the runs. */
  lemma {:induction false} GenerationsCountRuns(o: Options, s: State, events: seq<Event>)
    requires s.generation == |s.runs|
    ensures Run(o, s, events).generation == |Run(o, s, events).runs|
    decreases |events|
  {
    if events != [] {
      NextCounts(o, s, events[0]);
      hide Next;
      GenerationsCountRuns(o, Next(o, s, events[0]), events[1..]);
    }
  }

  /**
   * A cleanup registered late, by the `n`-th run, waits exactly if that run is still the
   * latest and the effect was not stopped; otherwise it runs on the spot.
   */
  lemma {:induction false} LateCleanupExactly(o: Options, before: seq<Event>, n: nat, c: Cleanup)
    ensures var s := Run(o, INITIAL, before);
            var s' := Next(o, s, Late(n, c));
            && s'.registered == s.registered + [c]
            && if s.isActive && n == |s.runs| then s'.cleanups == s.cleanups + [c] && s'.ran == s.ran
               else s'.cleanups == s.cleanups && s'.ran == s.ran + [c]
  {
    GenerationsCountRuns(o, INITIAL, before);
  }

  // ---------------------------------------------------------------------------------------
  // Pausing and resuming, in every mode

  /** Resuming an effect that was not stopped runs it once, whatever was scheduled. */
  lemma {:induction false} ResumingRuns(o: Options, s: State, body: Body, at: int)
    requires s.isActive && Calm(body)
    ensures RanOnce(s, Next(o, s, Resumed(body, at)), body, at)
  {
    CalmRun(s.(isPaused := false), body, at);
  }

  /** Triggers that come while the effect is paused are lost: they leave nothing to run later either. */
  lemma {:induction false} PausedTriggersAreLost(o: Options, s: State, triggers: seq<Event>)
    requires s.isPaused && forall i :: 0 <= i < |triggers| ==> triggers[i].Triggered?
    ensures Run(o, s, triggers) == s
    decreases |triggers|
  {
    if triggers != [] {
      PausedTriggersAreLost(o, Next(o, s, triggers[0]), triggers[1..]);
    }
  }

  lemma {:induction false} ActAllPauses(s: State, generation: nat, actions: seq<Action>)
    ensures ActAll(s, generation, actions).isPaused <==> s.isPaused || PauseSelf in actions
    decreases |actions|
  {
    if actions != [] {
      ActAllPauses(Act(s, generation, actions[0]), generation, actions[1..]);
      assert actions == [actions[0]] + actions[1..];
    }
  }

  /** A run leaves its effect paused exactly if the callback paused it, however the run ended. */
  lemma {:induction false} PausingFromInside(s: State, body: Body, now: int)
    requires s.isActive && !s.isPaused
    ensures Execute(s, body, now).0.isPaused <==> PauseSelf in body.actions
  {
    var begun := RunCleanups(s).(isScheduled := false, generation := s.generation + 1, subscriptions := [],
                                 runs := s.runs + [now]);
    ActAllPauses(begun, begun.generation, body.actions);
  }

  /** Nothing runs a paused effect but resuming it. */
  lemma {:induction false} PausedRunsNothing(o: Options, s: State, events: seq<Event>)
    requires s.isPaused && forall i :: 0 <= i < |events| ==> !events[i].Resumed?
    ensures var s' := Run(o, s, events);
            && s'.isPaused && s'.runs == s.runs
            && (s'.isActive ==> s.isActive && s'.subscriptions == s.subscriptions)
    decreases |events|
  {
    if events != [] {
      PausedRunsNothing(o, Next(o, s, events[0]), events[1..]);
    }
  }

  // ---------------------------------------------------------------------------------------
  // Without debounce and without post flush

  predicate Sync(o: Options) {
    o.debounce.None? && !o.flushPost
  }

  lemma {:induction false} ActAllSchedules(s: State, generation: nat, actions: seq<Action>)
    ensures var s' := ActAll(s, generation, actions);
            s'.isScheduled == s.isScheduled && s'.queued == s.queued
    decreases |actions|
  {
    if actions != [] {
      ActAllSchedules(Act(s, generation, actions[0]), generation, actions[1..]);
    }
  }

  /** A run leaves nothing scheduled; no run leaves everything as it was. */
  lemma {:induction false} ExecuteSchedules(s: State, body: Body, now: int)
    ensures var s' := Execute(s, body, now).0;
            && s'.isScheduled == (s.isScheduled && (!s.isActive || s.isPaused))
            && s'.queued == s.queued && (!s.isActive || s.isPaused ==> s' == s)
            && (s'.isActive ==> s.isActive) && (s.isPaused ==> s'.isPaused)
  {
    if s.isActive && !s.isPaused {
      var begun := RunCleanups(s).(isScheduled := false, generation := s.generation + 1, subscriptions := [],
                                   runs := s.runs + [now]);
      ActAllSchedules(begun, begun.generation, body.actions);
      ActAllStops(begun, begun.generation, body.actions);
    }
  }

  /** Such an effect is never left scheduled, so no trigger is swallowed. */
  lemma {:induction false} NeverScheduled(o: Options, s: State, events: seq<Event>)
    requires Sync(o) && !s.isScheduled && s.queued == 0
    ensures !Run(o, s, events).isScheduled && Run(o, s, events).queued == 0
    decreases |events|
  {
    if events != [] {
      var e := events[0];
      if e.Triggered? || e.TimerDue? || e.Microtask? || e.Resumed? {
        ExecuteSchedules(s, e.body, e.at);
        ExecuteSchedules(s.(isPaused := false), e.body, e.at);
        hide Execute;
      }
      NeverScheduled(o, Next(o, s, e), events[1..]);
    }
  }

  /** After any history, whatever its callbacks did, a trigger of an effect that is awake runs it at once. */
  lemma {:induction false} SyncTriggerRuns(o: Options, before: seq<Event>, body: Body, at: int)
    requires Sync(o) && Calm(body)
    requires var s := Run(o, INITIAL, before); s.isActive && !s.isPaused
    ensures var s := Run(o, INITIAL, before);
            RanOnce(s, Next(o, s, Triggered(body, at)), body, at)
  {
    NeverScheduled(o, INITIAL, before);
    CalmRun(Run(o, INITIAL, before), body, at);
  }

  /** The instants at which the callback must run, told from the events alone. */
  function RunsDue(active: bool, paused: bool, events: seq<Event>): seq<int>
    decreases |events|
  {
    if events == [] then []
    else
      match events[0]
      case Triggered(_, at) => (if active && !paused then [at] else []) + RunsDue(active, paused, events[1..])
      case Resumed(_, at) => (if active then [at] else []) + RunsDue(active, false, events[1..])
      case Paused => RunsDue(active, true, events[1..])
      case Stopped => RunsDue(false, paused, events[1..])
      case TimerDue(_, _) => RunsDue(active, paused, events[1..])
      case Microtask(_, _) => RunsDue(active, paused, events[1..])
      case Late(_, _) => RunsDue(active, paused, events[1..])
  }

  /** The dependencies that must be subscribed afterwards: those of the latest run, none once stopped. */
  function DepsDue(active: bool, paused: bool, deps: seq<Dep>, events: seq<Event>): seq<Dep>
    decreases |events|
  {
    if events == [] then if active then deps else []
    else
      match events[0]
      case Triggered(body, _) => DepsDue(active, paused, if active && !paused then body.deps else deps, events[1..])
      case Resumed(body, _) => DepsDue(active, false, if active then body.deps else deps, events[1..])
      case Paused => DepsDue(active, true, deps, events[1..])
      case Stopped => DepsDue(false, paused, deps, events[1..])
      case TimerDue(_, _) => DepsDue(active, paused, deps, events[1..])
      case Microtask(_, _) => DepsDue(active, paused, deps, events[1..])
      case Late(_, _) => DepsDue(active, paused, deps, events[1..])
  }

  lemma {:induction false} StoppedNeedsNone(paused: bool, deps: seq<Dep>, events: seq<Event>)
    ensures DepsDue(false, paused, deps, events) == []
    decreases |events|
  {
    if events != [] {
      StoppedNeedsNone(events[0].Paused? || (paused && !events[0].Resumed?), deps, events[1..]);
    }
  }

  /** One event of a run without debounce and without post flush. */
  lemma {:induction false} SyncStep(o: Options, s: State, e: Event)
    requires Sync(o) && !s.isScheduled && s.queued == 0 && CalmEvent(e)
    ensures var s' := Next(o, s, e);
            && s'.isActive == (s.isActive && !e.Stopped?)
            && s'.isPaused == (if e.Paused? then true else if e.Resumed? then false else s.isPaused)
            && !s'.isScheduled && s'.queued == 0
            && (if (e.Triggered? && s.isActive && !s.isPaused) || (e.Resumed? && s.isActive)
                then RanOnce(s, s', e.body, e.at)
                else s'.runs == s.runs && (s'.isActive ==> s'.subscriptions == s.subscriptions))
            && (e.Stopped? ==> s'.subscriptions == [])
            && (!s.isActive && s.subscriptions == [] ==> s'.subscriptions == [])
  {
    if s.isActive && (e.Triggered? || e.Resumed?) {
      CalmRun(s.(isPaused := false), e.body, e.at);
    }
  }

  /**
   * Without debounce and post flush the callback runs exactly when the effect is triggered or
   * resumed while it is neither stopped nor paused, at that instant, and afterwards exactly
   * the dependencies of the latest run are subscribed. So from every history.
   */
  lemma {:induction false} SyncAccounting(o: Options, events: seq<Event>)
    requires Sync(o) && AllCalm(events)
    ensures Run(o, INITIAL, events).runs == RunsDue(true, false, events)
    ensures Run(o, INITIAL, events).subscriptions == DepsDue(true, false, [], events)
  {
    SyncAccountingFrom(o, INITIAL, events);
    assert [] + RunsDue(true, false, events) == RunsDue(true, false, events);
  }

  lemma {:induction false} SyncAccountingFrom(o: Options, s: State, events: seq<Event>)
    requires Sync(o) && AllCalm(events) && !s.isScheduled && s.queued == 0
    requires !s.isActive ==> s.subscriptions == []
    ensures Run(o, s, events).runs == s.runs + RunsDue(s.isActive, s.isPaused, events)
    ensures Run(o, s, events).subscriptions == DepsDue(s.isActive, s.isPaused, s.subscriptions, events)
    decreases |events|
  {
    if events == [] {
      assert s.runs + [] == s.runs;
    } else {
      assert CalmEvent(events[0]);
      SyncStep(o, s, events[0]);
      hide Next;
      var s1 := Next(o, s, events[0]);
      SyncAccountingFrom(o, s1, events[1..]);
      Joined(s.runs, if s1.runs == s.runs then [] else [s1.runs[|s.runs|]],
             RunsDue(s1.isActive, s1.isPaused, events[1..]));
      if !s1.isActive {
        StoppedNeedsNone(s1.isPaused, s.subscriptions, events[1..]);
        StoppedNeedsNone(s1.isPaused, s1.subscriptions, events[1..]);
      }
    }
  }

  // ---------------------------------------------------------------------------------------
  // With post flush

  predicate Post(o: Options) {
    o.debounce.None? && o.flushPost
  }

  /** An effect that is awake and scheduled has a microtask coming. */
  predicate Coming(s: State) {
    s.isActive && !s.isPaused && s.isScheduled ==> 0 < s.queued
  }

  lemma {:induction false} AlwaysComing(o: Options, s: State, events: seq<Event>)
    requires Post(o) && Coming(s)
    ensures Coming(Run(o, s, events))
    decreases |events|
  {
    if events != [] {
      var e := events[0];
      if e.Microtask? || e.Resumed? {
        ExecuteSchedules(s.(isPaused := false), e.body, e.at);
        if s.queued > 0 {
          ExecuteSchedules(s.(queued := s.queued - 1), e.body, e.at);
        }
        hide Execute;
      }
      AlwaysComing(o, Next(o, s, e), events[1..]);
    }
  }

  ghost predicate AllTriggers(events: seq<Event>) {
    forall i :: 0 <= i < |events| ==> events[i].Triggered?
  }

  ghost predicate CalmMicrotasks(events: seq<Event>) {
    forall i :: 0 <= i < |events| ==> events[i].Microtask? && Calm(events[i].body)
  }

  function Instants(events: seq<Event>): seq<int>
    requires forall i :: 0 <= i < |events| ==> events[i].Microtask?
  {
    if events == [] then [] else [events[0].at] + Instants(events[1..])
  }

  /** Triggers queue one microtask between them, unless one is scheduled already, and run nothing. */
  lemma {:induction false} TriggersQueue(o: Options, s: State, triggers: seq<Event>)
    requires Post(o) && s.isActive && !s.isPaused && AllTriggers(triggers)
    ensures Run(o, s, triggers) == if triggers == [] || s.isScheduled then s
                                   else s.(isScheduled := true, queued := s.queued + 1)
    decreases |triggers|
  {
    if triggers != [] {
      TriggersQueue(o, Next(o, s, triggers[0]), triggers[1..]);
    }
  }

  lemma {:induction false} MicrotaskStep(o: Options, s: State, e: Event)
    requires s.isActive && !s.isPaused && e.Microtask? && Calm(e.body)
    ensures var s' := Next(o, s, e);
            if s.queued == 0 then s' == s else RanOnce(s, s', e.body, e.at) && s'.queued == s.queued - 1
  {
    if s.queued > 0 {
      CalmRun(s.(queued := s.queued - 1), e.body, e.at);
    }
  }

  lemma {:induction false} FirstInstant(tasks: seq<Event>, n: nat)
    requires 0 < n <= |tasks| && CalmMicrotasks(tasks)
    ensures Instants(tasks[..n]) == [tasks[0].at] + Instants(tasks[1..][..n - 1])
  {
    assert tasks[..n][1..] == tasks[1..][..n - 1];
  }

  /** Each queued microtask runs the callback once. */
  lemma {:induction false} MicrotasksRun(o: Options, s: State, tasks: seq<Event>)
    requires s.isActive && !s.isPaused && CalmMicrotasks(tasks)
    ensures var n, s' := Min(|tasks|, s.queued), Run(o, s, tasks);
            && s'.runs == s.runs + Instants(tasks[..n]) && s'.queued == s.queued - n
            && s'.isActive && !s'.isPaused && s'.isScheduled == (s.isScheduled && n == 0)
            && s'.subscriptions == if n == 0 then s.subscriptions else tasks[n - 1].body.deps
    decreases |tasks|
  {
    hide Next, Calm, Instants;
    if tasks != [] {
      MicrotaskStep(o, s, tasks[0]);
      MicrotasksRun(o, Next(o, s, tasks[0]), tasks[1..]);
    }
    if tasks == [] || s.queued == 0 {
      NoInstants();
      assert s.runs + [] == s.runs;
    } else {
      var n := Min(|tasks|, s.queued);
      FirstInstant(tasks, n);
      assert s.runs + [tasks[0].at] + Instants(tasks[1..][..n - 1]) == s.runs + Instants(tasks[..n]);
    }
  }

  lemma NoInstants()
    ensures Instants([]) == []
  {
  }

  /**
   * With post flush, a batch of triggers runs the callback exactly once, when the microtask
   * comes, however many triggers there were and however many microtasks follow; and the
   * dependencies of that run are subscribed. This holds after every history that left no
   * microtask queued.
   */
  lemma {:induction false} PostAccounting(o: Options, before: seq<Event>, triggers: seq<Event>, tasks: seq<Event>)
    requires Post(o) && triggers != [] && AllTriggers(triggers) && tasks != [] && CalmMicrotasks(tasks)
    requires var s := Run(o, INITIAL, before); s.isActive && !s.isPaused && s.queued == 0
    ensures var s := Run(o, INITIAL, before);
            var waiting := Run(o, s, triggers);
            var s' := Run(o, waiting, tasks);
            && waiting.runs == s.runs && waiting.subscriptions == s.subscriptions && waiting.queued == 1
            && s'.runs == s.runs + [tasks[0].at] && s'.subscriptions == tasks[0].body.deps
            && s'.queued == 0 && s'.isActive && !s'.isPaused && !s'.isScheduled
  {
    var s := Run(o, INITIAL, before);
    AlwaysComing(o, INITIAL, before);
    TriggersQueue(o, s, triggers);
    MicrotasksRun(o, Run(o, s, triggers), tasks);
    hide Run;
    assert tasks[..1] == [tasks[0]];
    assert Instants(tasks[..1]) == [tasks[0].at] + Instants(tasks[..1][1..]);
  }

  /**
   * Resuming does not call back a microtask: with one pending, it runs the callback at once,
   * the microtask runs it again, and a trigger in between queues another.
   */
  lemma {:induction false} ResumingBeforeTheMicrotask(o: Options, s: State, resumed: Event, triggered: Event,
                                                      tasks: seq<Event>)
    requires Post(o) && s.isActive && !s.isPaused && s.queued == 1
    requires resumed.Resumed? && Calm(resumed.body) && triggered.Triggered?
    requires |tasks| == 2 && CalmMicrotasks(tasks)
    ensures Run(o, s, [resumed, triggered] + tasks).runs == s.runs + [resumed.at, tasks[0].at, tasks[1].at]
  {
    ResumingRuns(o, s, resumed.body, resumed.at);
    CalmRun(s.(isPaused := false), resumed.body, resumed.at);
    var s1 := Next(o, s, resumed);
    var s2 := Next(o, s1, triggered);
    MicrotasksRun(o, s2, tasks);
    assert ([resumed, triggered] + tasks)[1..] == [triggered] + tasks && ([triggered] + tasks)[1..] == tasks;
    assert tasks[..2][1..] == [tasks[1]] && [tasks[1]][1..] == [];
    assert Instants(tasks[..2]) == [tasks[0].at] + Instants([tasks[1]]);
    assert Instants([tasks[1]]) == [tasks[1].at] + Instants([]);
  }
}
